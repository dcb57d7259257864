/** Check digits of national identifiers, on the compacted upper-case candidate.

    For the Chinese, Japanese and French numbers: which wrong characters and which swaps of
    neighbours the check digits detect, for every number.  The Chinese and French ones detect all
    of them; the Japanese one misses those that move the remainder between 0 and 1. */
module CheckDigits {

  predicate IsDigit(c: char) { '0' <= c <= '9' }

  predicate AllDigits(s: string) { forall i | 0 <= i < |s| :: IsDigit(s[i]) }

  function DigitValue(c: char): (n: nat)
    requires IsDigit(c)
    ensures n < 10
  {
    c as int - '0' as int
  }

  /** int(text) for a text of digits. */
  function Int(v: seq<int>, acc: int): int { if v == [] then acc else Int(v[1..], acc * 10 + v[0]) }

  // ---- Weighted sums ----

  function Weighted(v: seq<int>, w: seq<int>): int
    requires |v| == |w|
  {
    if v == [] then 0 else v[0] * w[0] + Weighted(v[1..], w[1..])
  }

  lemma {:induction false} WeightedUpdate(v: seq<int>, w: seq<int>, i: nat, x: int)
    requires |v| == |w| && i < |v|
    ensures Weighted(v[i := x], w) == Weighted(v, w) + (x - v[i]) * w[i]
  {
    if i == 0 {
      assert v[0 := x][1..] == v[1..];
    } else {
      assert v[i := x][1..] == v[1..][i - 1 := x];
      WeightedUpdate(v[1..], w[1..], i - 1, x);
    }
  }

  function Swapped<T>(v: seq<T>, i: nat): seq<T>
    requires i + 1 < |v|
  {
    v[i := v[i + 1]][i + 1 := v[i]]
  }

  lemma {:induction false} WeightedSwap(v: seq<int>, w: seq<int>, i: nat)
    requires |v| == |w| && i + 1 < |v|
    ensures Weighted(Swapped(v, i), w) == Weighted(v, w) + (v[i + 1] - v[i]) * (w[i] - w[i + 1])
  {
    WeightedUpdate(v, w, i, v[i + 1]);
    WeightedUpdate(v[i := v[i + 1]], w, i + 1, v[i]);
    Distribute(v[i + 1] - v[i], w[i], w[i + 1]);
  }

  lemma {:induction false} Distribute(d: int, p: int, q: int)
    ensures d * p + (-d) * q == d * (p - q)
  {}

  lemma {:induction false} WeightedConcat(v: seq<int>, w: seq<int>, x: seq<int>, y: seq<int>)
    requires |v| == |w| && |x| == |y|
    ensures Weighted(v + x, w + y) == Weighted(v, w) + Weighted(x, y)
  {
    if v == [] {
      assert v + x == x && w + y == y;
    } else {
      assert (v + x)[1..] == v[1..] + x && (w + y)[1..] == w[1..] + y;
      WeightedConcat(v[1..], w[1..], x, y);
    }
  }

  // ---- China: GB 11643 ----

  const CN_WEIGHTS: seq<int> := [7, 9, 10, 5, 8, 4, 2, 1, 6, 3, 7, 9, 10, 5, 8, 4, 2]

  const CN_CHECK_CHARACTERS: string := "10X98765432"

  function Digits(s: string): (v: seq<int>)
    requires AllDigits(s)
    ensures |v| == |s| && forall i | 0 <= i < |s| :: v[i] == DigitValue(s[i])
  {
    seq(|s|, i requires 0 <= i < |s| => DigitValue(s[i]))
  }

  predicate IsLeap(y: int) { y % 4 == 0 && (y % 100 != 0 || y % 400 == 0) }

  function DaysIn(y: int, m: int): int {
    if m == 2 then if IsLeap(y) then 29 else 28
    else if m == 4 || m == 6 || m == 9 || m == 11 then 30
    else 31
  }

  /** Does datetime.strptime accept these eight digits as %Y%m%d? */
  predicate IsDate(s: string)
    requires |s| == 8 && AllDigits(s)
  {
    var v := Digits(s);
    var y, m, d := Int(v[..4], 0), Int(v[4..6], 0), Int(v[6..], 0);
    y >= 1 && 1 <= m <= 12 && 1 <= d <= DaysIn(y, m)
  }

  predicate IsCnId(c: string) {
    && |c| == 18 && AllDigits(c[..17]) && (IsDigit(c[17]) || c[17] == 'X')
    && c[..6] != "000000" && c[14..17] != "000" && AllDigits(c[6..14]) && IsDate(c[6..14])
    && c[17] == CN_CHECK_CHARACTERS[Weighted(Digits(c[..17]), CN_WEIGHTS) % 11]
  }

  /** The value of a character of the number; X is ten. */
  function CnValue(c: char): int { if IsDigit(c) then DigitValue(c) else 10 }

  function CnValues(c: string): (v: seq<int>)
    ensures |v| == |c| && forall i | 0 <= i < |c| :: v[i] == CnValue(c[i])
  {
    seq(|c|, i requires 0 <= i < |c| => CnValue(c[i]))
  }

  const CN_ALL_WEIGHTS: seq<int> := CN_WEIGHTS + [1]

  lemma {:induction false} CnCheckValue(k: nat)
    requires k < 11
    ensures CnValue(CN_CHECK_CHARACTERS[k]) == (12 - k) % 11
  {}

  /** The whole number, check character included, weighs 1 modulo 11. */
  lemma {:induction false} CnEquation(c: string)
    requires IsCnId(c)
    ensures Weighted(CnValues(c), CN_ALL_WEIGHTS) % 11 == 1
  {
    var sum := Weighted(Digits(c[..17]), CN_WEIGHTS);
    assert CnValues(c) == Digits(c[..17]) + [CnValue(c[17])];
    WeightedConcat(Digits(c[..17]), CN_WEIGHTS, [CnValue(c[17])], [1]);
    assert Weighted([CnValue(c[17])], [1]) == CnValue(c[17]);
    CnCheckValue(sum % 11);
  }

  lemma {:induction false} ElevenDoesNotDivide(d: int, w: int)
    requires 0 < w < 11 && -11 < d < 11 && d != 0
    ensures (d * w) % 11 != 0
  {
    if w == 1 {} else if w == 2 {} else if w == 3 {} else if w == 4 {} else if w == 5 {}
    else if w == 6 {} else if w == 7 {} else if w == 8 {} else if w == 9 {} else {}
  }

  lemma {:induction false} ElevenDoesNotDivideSigned(d: int, w: int)
    requires -11 < w < 11 && w != 0 && -11 < d < 11 && d != 0
    ensures (d * w) % 11 != 0
  {
    if w > 0 {
      ElevenDoesNotDivide(d, w);
    } else {
      ElevenDoesNotDivide(-d, -w);
      assert (-d) * (-w) == d * w;
    }
  }

  lemma {:induction false} CnWeights(i: nat)
    requires i < 18
    ensures 0 < CN_ALL_WEIGHTS[i] < 11
    ensures i < 17 ==> CN_ALL_WEIGHTS[i] != CN_ALL_WEIGHTS[i + 1]
  {}

  lemma {:induction false} ElevenMoves(s: int, delta: int)
    requires delta % 11 != 0
    ensures (s + delta) % 11 != s % 11
  {}

  lemma {:induction false} ElevenProductMoves(s: int, d: int, w: int)
    requires -11 < w < 11 && w != 0 && -11 < d < 11 && d != 0
    ensures (s + d * w) % 11 != s % 11
  {
    ElevenDoesNotDivideSigned(d, w);
    ElevenMoves(s, d * w);
  }

  predicate IsCnCharacter(c: char) { IsDigit(c) || c == 'X' }

  lemma {:induction false} CnSubstitutionMoves(c: string, i: nat, x: char)
    requires |c| == 18 && i < 18 && IsCnCharacter(c[i]) && IsCnCharacter(x) && x != c[i]
    ensures Weighted(CnValues(c[i := x]), CN_ALL_WEIGHTS) % 11 != Weighted(CnValues(c), CN_ALL_WEIGHTS) % 11
  {
    var delta := CnValue(x) - CnValue(c[i]);
    assert CnValues(c[i := x]) == CnValues(c)[i := CnValue(x)];
    WeightedUpdate(CnValues(c), CN_ALL_WEIGHTS, i, CnValue(x));
    CnWeights(i);
    CnValuesDiffer(c[i], x);
    ElevenProductMoves(Weighted(CnValues(c), CN_ALL_WEIGHTS), delta, CN_ALL_WEIGHTS[i]);
  }

  lemma {:induction false} CnCharacters(c: string, i: nat)
    requires IsCnId(c) && i < 18
    ensures IsCnCharacter(c[i])
  {
    if i < 17 { assert c[i] == c[..17][i]; }
  }

  /** No single wrong character goes unnoticed, in the base or in the check character. */
  lemma {:induction false} CnDetectsSubstitution(c: string, i: nat, x: char)
    requires IsCnId(c) && i < 18 && x != c[i]
    ensures !IsCnId(c[i := x])
  {
    CnCharacters(c, i);
    if IsCnCharacter(x) { CnSubstitutionMoves(c, i, x); }
    CnEquation(c);
    if IsCnId(c[i := x]) {
      CnEquation(c[i := x]);
      CnCharacters(c[i := x], i);
    }
  }

  lemma {:induction false} CnValuesDiffer(a: char, b: char)
    requires IsCnCharacter(a) && IsCnCharacter(b) && a != b
    ensures CnValue(a) != CnValue(b) && -11 < CnValue(b) - CnValue(a) < 11
  {}

  lemma {:induction false} CnTranspositionMoves(c: string, i: nat)
    requires |c| == 18 && i < 17 && IsCnCharacter(c[i]) && IsCnCharacter(c[i + 1]) && c[i] != c[i + 1]
    ensures Weighted(CnValues(Swapped(c, i)), CN_ALL_WEIGHTS) % 11 != Weighted(CnValues(c), CN_ALL_WEIGHTS) % 11
  {
    var delta, gap := CnValue(c[i + 1]) - CnValue(c[i]), CN_ALL_WEIGHTS[i] - CN_ALL_WEIGHTS[i + 1];
    assert CnValues(Swapped(c, i)) == Swapped(CnValues(c), i);
    WeightedSwap(CnValues(c), CN_ALL_WEIGHTS, i);
    CnWeights(i);
    CnWeights(i + 1);
    CnValuesDiffer(c[i], c[i + 1]);
    ElevenProductMoves(Weighted(CnValues(c), CN_ALL_WEIGHTS), delta, gap);
  }

  /** Nor does a swap of unequal neighbours. */
  lemma {:induction false} CnDetectsTransposition(c: string, i: nat)
    requires IsCnId(c) && i < 17 && c[i] != c[i + 1]
    ensures !IsCnId(Swapped(c, i))
  {
    CnCharacters(c, i);
    CnCharacters(c, i + 1);
    CnTranspositionMoves(c, i);
    CnEquation(c);
    if IsCnId(Swapped(c, i)) {
      CnEquation(Swapped(c, i));
    }
  }

  // ---- Japan: the Individual Number ----

  /** From the left; the source counts positions from the right. */
  const JP_WEIGHTS: seq<int> := [6, 5, 4, 3, 2, 7, 6, 5, 4, 3, 2]

  predicate AllSame(s: string) { forall i | 0 <= i < |s| :: s[i] == s[0] }

  predicate JpFormat(c: string) { |c| == 12 && AllDigits(c) && !AllSame(c[..11]) }

  function JpRemainder(c: string): (r: nat)
    requires |c| == 12 && AllDigits(c)
    ensures r < 11
  {
    Weighted(Digits(c[..11]), JP_WEIGHTS) % 11
  }

  function JpExpected(r: nat): nat { if r <= 1 then 0 else if r <= 11 then 11 - r else 0 }

  predicate IsJpNumber(c: string) { JpFormat(c) && DigitValue(c[11]) == JpExpected(JpRemainder(c)) }

  method ValidJpMyNumber(candidate: string) returns (valid: bool)
    ensures valid == IsJpNumber(candidate)
  {
    if !JpFormat(candidate) { return false; }
    var base := candidate[..11];
    var digits, total := Digits(base), 0;
    for position := 1 to 12
      invariant total == Weighted(digits[12 - position..], JP_WEIGHTS[12 - position..])
    {
      var weight := if position <= 6 then position + 1 else position - 5;
      JpWeightAt(position);
      var at := 11 - position;
      assert digits[at..][1..] == digits[at + 1..] && JP_WEIGHTS[at..][1..] == JP_WEIGHTS[at + 1..];
      total := total + DigitValue(base[at]) * weight;
    }
    assert digits[0..] == digits && JP_WEIGHTS[0..] == JP_WEIGHTS;
    var remainder := total % 11;
    var expected := if remainder == 0 || remainder == 1 then 0 else 11 - remainder;
    return DigitValue(candidate[11]) == expected;
  }

  lemma {:induction false} JpWeightAt(position: nat)
    requires 1 <= position <= 11
    ensures JP_WEIGHTS[11 - position] == if position <= 6 then position + 1 else position - 5
  {}

  lemma {:induction false} JpWeights(i: nat)
    requires i < 11
    ensures 0 < JP_WEIGHTS[i] < 11
    ensures i < 10 ==> JP_WEIGHTS[i] != JP_WEIGHTS[i + 1] && -11 < JP_WEIGHTS[i] - JP_WEIGHTS[i + 1] < 11
  {}

  /** The two remainders that share a check digit. */
  predicate Confused(r: nat, s: nat) { (r == 0 && s == 1) || (r == 1 && s == 0) }

  lemma {:induction false} SameExpected(r: nat, s: nat)
    requires r < 11 && s < 11 && r != s
    ensures JpExpected(r) == JpExpected(s) <==> Confused(r, s)
  {}

  predicate AreDigits(v: seq<int>) { forall i | 0 <= i < |v| :: 0 <= v[i] < 10 }

  lemma {:induction false} JpSubstitutionMoves(v: seq<int>, i: nat, x: int)
    requires |v| == 11 && AreDigits(v) && i < 11 && 0 <= x < 10 && x != v[i]
    ensures Weighted(v[i := x], JP_WEIGHTS) % 11 != Weighted(v, JP_WEIGHTS) % 11
  {
    WeightedUpdate(v, JP_WEIGHTS, i, x);
    JpWeights(i);
    ElevenProductMoves(Weighted(v, JP_WEIGHTS), x - v[i], JP_WEIGHTS[i]);
  }

  lemma {:induction false} JpTranspositionMoves(v: seq<int>, i: nat)
    requires |v| == 11 && AreDigits(v) && i < 10 && v[i] != v[i + 1]
    ensures Weighted(Swapped(v, i), JP_WEIGHTS) % 11 != Weighted(v, JP_WEIGHTS) % 11
  {
    var delta, gap := v[i + 1] - v[i], JP_WEIGHTS[i] - JP_WEIGHTS[i + 1];
    WeightedSwap(v, JP_WEIGHTS, i);
    JpWeights(i);
    ElevenProductMoves(Weighted(v, JP_WEIGHTS), delta, gap);
  }

  /** Every wrong digit in the base changes the remainder; it goes unnoticed exactly when the
      remainder moves between 0 and 1 and the new base is not one repeated digit. */
  lemma {:induction false} JpSubstitution(c: string, i: nat, x: char)
    requires IsJpNumber(c) && i < 11 && IsDigit(x) && x != c[i]
    ensures var d := c[i := x];
            && AllDigits(d) && JpRemainder(d) != JpRemainder(c)
            && (IsJpNumber(d) <==> Confused(JpRemainder(c), JpRemainder(d)) && !AllSame(d[..11]))
  {
    var d := c[i := x];
    assert AllDigits(d);
    assert d[..11] == c[..11][i := x];
    JpSubstitutionMoves(Digits(c[..11]), i, DigitValue(x));
    assert Digits(d[..11]) == Digits(c[..11])[i := DigitValue(x)];
    SameExpected(JpRemainder(c), JpRemainder(d));
  }

  lemma {:induction false} WeightedCons(x: int, v: seq<int>, y: int, w: seq<int>)
    requires |v| == |w|
    ensures Weighted([x] + v, [y] + w) == x * y + Weighted(v, w)
  {
    assert ([x] + v)[1..] == v && ([y] + w)[1..] == w;
  }

  function JpExample(first: char): string { [first, '2', '0', '0', '0', '0', '0', '0', '0', '0', '3', '0'] }

  lemma {:induction false} JpExampleDigits(first: char)
    requires first == '1' || first == '3'
    ensures var c := JpExample(first);
            JpFormat(c) && Digits(c[..11]) == [DigitValue(first)] + [2, 0, 0, 0, 0, 0, 0, 0, 0, 3]
  {
    var c := JpExample(first);
    assert c[..11] == [first, '2', '0', '0', '0', '0', '0', '0', '0', '0', '3'];
    assert c[..11][0] != c[..11][1];
    assert Digits(c[..11]) == [DigitValue(first), 2, 0, 0, 0, 0, 0, 0, 0, 0, 3];
  }

  lemma {:induction false} JpExampleRemainder(first: char)
    requires first == '1' || first == '3'
    ensures var c := JpExample(first);
            JpFormat(c) && c[11] == '0' && JpRemainder(c) == (DigitValue(first) * 6 + 16) % 11
  {
    var c, tail := JpExample(first), [2, 0, 0, 0, 0, 0, 0, 0, 0, 3];
    JpExampleSum();
    WeightedCons(DigitValue(first), tail, 6, JP_WEIGHTS[1..]);
    assert JP_WEIGHTS == [6] + JP_WEIGHTS[1..];
    JpExampleDigits(first);
  }

  /** Such a change exists: 120000000030 and 320000000030 are both accepted. */
  lemma {:induction false} JpUndetectedChange(first: char)
    requires first == '1' || first == '3'
    ensures IsJpNumber(JpExample(first)) && JpRemainder(JpExample(first)) == if first == '1' then 0 else 1
  {
    hide JpExample, JpRemainder;
    JpExampleRemainder(first);
  }

  lemma {:induction false} WeightedOne(x: int, y: int)
    ensures Weighted([x], [y]) == x * y
  {}

  lemma {:induction false} JpExampleSum()
    ensures Weighted([2, 0, 0, 0, 0, 0, 0, 0, 0, 3], JP_WEIGHTS[1..]) == 16
  {
    hide Weighted;
    assert JP_WEIGHTS[1..] == [5] + ([4, 3, 2, 7, 6, 5, 4, 3] + [2]);
    assert [2, 0, 0, 0, 0, 0, 0, 0, 0, 3] == [2] + ([0, 0, 0, 0, 0, 0, 0, 0] + [3]);
    WeightedCons(2, [0, 0, 0, 0, 0, 0, 0, 0] + [3], 5, [4, 3, 2, 7, 6, 5, 4, 3] + [2]);
    WeightedConcat([0, 0, 0, 0, 0, 0, 0, 0], [4, 3, 2, 7, 6, 5, 4, 3], [3], [2]);
    WeightedZeros([0, 0, 0, 0, 0, 0, 0, 0], [4, 3, 2, 7, 6, 5, 4, 3]);
    WeightedOne(3, 2);
  }

  lemma {:induction false} WeightedZeros(v: seq<int>, w: seq<int>)
    requires |v| == |w| && forall i | 0 <= i < |v| :: v[i] == 0
    ensures Weighted(v, w) == 0
  {
    if v != [] { WeightedZeros(v[1..], w[1..]); }
  }

  /** The same for a swap of unequal neighbours in the base. */
  lemma {:induction false} JpTransposition(c: string, i: nat)
    requires IsJpNumber(c) && i < 10 && c[i] != c[i + 1]
    ensures var d := Swapped(c, i);
            && AllDigits(d) && JpRemainder(d) != JpRemainder(c)
            && (IsJpNumber(d) <==> Confused(JpRemainder(c), JpRemainder(d)))
  {
    var d := Swapped(c, i);
    assert AllDigits(d);
    assert d[..11] == Swapped(c[..11], i);
    JpTranspositionMoves(Digits(c[..11]), i);
    assert Digits(d[..11]) == Swapped(Digits(c[..11]), i);
    SameExpected(JpRemainder(c), JpRemainder(d));
    assert d[..11][i] != d[..11][i + 1];
  }

  /** A wrong check digit never goes unnoticed. */
  lemma {:induction false} JpDetectsCheckDigit(c: string, x: char)
    requires IsJpNumber(c) && x != c[11]
    ensures !IsJpNumber(c[11 := x])
  {
    assert c[11 := x][..11] == c[..11];
  }

  // ---- France: the NIR ----

  predicate NirFormat(c: string) {
    && |c| == 15 && (c[0] == '1' || c[0] == '2')
    && (forall i | 0 <= i < 15 && i != 6 :: IsDigit(c[i]))
    && (IsDigit(c[6]) || (c[5] == '2' && (c[6] == 'A' || c[6] == 'B')))
  }

  /** base.replace("A", "0") and base.replace("B", "0"), as digits. */
  function NirDigits(base: string): (v: seq<int>)
    ensures |v| == |base|
  {
    seq(|base|, i requires 0 <= i < |base| => if IsDigit(base[i]) then DigitValue(base[i]) else 0)
  }

  function NirAdjusted(base: string): int
    requires |base| == 13
  {
    var n := Int(NirDigits(base), 0);
    if base[5..7] == "2A" then n - 1_000_000 else if base[5..7] == "2B" then n - 2_000_000 else n
  }

  predicate IsNir(c: string) {
    NirFormat(c) && Int(NirDigits(c[13..]), 0) == 97 - NirAdjusted(c[..13]) % 97
  }

  function Pow10(k: nat): (p: nat)
    ensures p > 0
  {
    if k == 0 then 1 else 10 * Pow10(k - 1)
  }

  function Powers(n: nat): (w: seq<int>)
    ensures |w| == n && forall i | 0 <= i < n :: w[i] == Pow10(n - 1 - i)
  {
    if n == 0 then [] else [Pow10(n - 1)] + Powers(n - 1)
  }

  lemma {:induction false} IntIsWeighted(v: seq<int>, acc: int)
    ensures Int(v, acc) == acc * Pow10(|v|) + Weighted(v, Powers(|v|))
  {
    if v != [] {
      var p := Pow10(|v| - 1);
      IntIsWeighted(v[1..], acc * 10 + v[0]);
      assert Powers(|v|)[1..] == Powers(|v| - 1);
      assert (acc * 10 + v[0]) * p == acc * (10 * p) + v[0] * p;
    }
  }

  /** The Corsican letters stand for -1 and -2: 2A counts as 19, 2B as 18. */
  function NirValue(c: char): int {
    if IsDigit(c) then DigitValue(c) else if c == 'A' then -1 else -2
  }

  function NirValues(s: string): (v: seq<int>)
    ensures |v| == |s| && forall i | 0 <= i < |s| :: v[i] == NirValue(s[i])
  {
    seq(|s|, i requires 0 <= i < |s| => NirValue(s[i]))
  }

  lemma {:induction false} Million()
    ensures Pow10(6) == 1_000_000
  {
    assert Pow10(3) == 1000;
    assert Pow10(6) == 1000 * Pow10(3);
  }

  lemma {:induction false} NirAdjustedIsWeighted(c: string)
    requires NirFormat(c)
    ensures NirAdjusted(c[..13]) == Weighted(NirValues(c[..13]), Powers(13))
  {
    var base := c[..13];
    IntIsWeighted(NirDigits(base), 0);
    assert base[5] == c[5] && base[6] == c[6];
    assert base[5..7] == [c[5], c[6]];
    if IsDigit(c[6]) {
      assert NirDigits(base) == NirValues(base);
    } else {
      assert NirValues(base) == NirDigits(base)[6 := NirValue(c[6])];
      WeightedUpdate(NirDigits(base), Powers(13), 6, NirValue(c[6]));
      Million();
    }
  }

  function NirWeights(): (w: seq<int>)
    ensures |w| == 15
  {
    Powers(13) + Powers(2)
  }

  /** Base and key together are a multiple of 97. */
  lemma {:induction false} NirEquation(c: string)
    requires IsNir(c)
    ensures Weighted(NirValues(c), NirWeights()) % 97 == 0
  {
    var base, key := c[..13], c[13..];
    NirAdjustedIsWeighted(c);
    assert NirDigits(key) == NirValues(key);
    IntIsWeighted(NirDigits(key), 0);
    assert NirValues(c) == NirValues(base) + NirValues(key);
    WeightedConcat(NirValues(base), Powers(13), NirValues(key), Powers(2));
  }

  lemma {:induction false} NinetySevenCancels(d: int, k: nat)
    requires (d * Pow10(k)) % 97 == 0
    ensures d % 97 == 0
  {
    if k > 0 {
      Regroup(d, 10, Pow10(k - 1));
      TenCancels(d * Pow10(k - 1));
      NinetySevenCancels(d, k - 1);
    }
  }

  lemma {:induction false} Regroup(a: int, b: int, c: int)
    ensures a * (b * c) == b * (a * c)
  {}

  lemma {:induction false} TenCancels(n: int)
    requires (10 * n) % 97 == 0
    ensures n % 97 == 0
  {
    var q := 10 * n / 97;
    assert n == 97 * (68 * q - 7 * n);
  }

  lemma {:induction false} NinetySevenMoves(s: int, delta: int)
    requires delta % 97 != 0
    ensures (s + delta) % 97 != s % 97
  {}

  lemma {:induction false} NirValuesDiffer(a: char, b: char)
    requires IsNirCharacter(a) && IsNirCharacter(b) && a != b
    ensures NirValue(a) != NirValue(b) && -12 < NirValue(b) - NirValue(a) < 12
  {}

  lemma {:induction false} NirWeightIsPower(i: nat)
    requires i < 15
    ensures NirWeights()[i] == Pow10(if i < 13 then 12 - i else 14 - i)
  {}

  lemma {:induction false} NirCharacter(c: string, i: nat)
    requires NirFormat(c) && i < 15
    ensures IsNirCharacter(c[i])
  {}

  predicate IsNirCharacter(c: char) { IsDigit(c) || c == 'A' || c == 'B' }

  lemma {:induction false} NirSubstitutionMoves(c: string, i: nat, x: char)
    requires |c| == 15 && i < 15 && IsNirCharacter(c[i]) && IsNirCharacter(x) && x != c[i]
    ensures Weighted(NirValues(c[i := x]), NirWeights()) % 97 != Weighted(NirValues(c), NirWeights()) % 97
  {
    hide Weighted, Powers;
    var delta, k := NirValue(x) - NirValue(c[i]), if i < 13 then 12 - i else 14 - i;
    assert NirValues(c[i := x]) == NirValues(c)[i := NirValue(x)];
    WeightedUpdate(NirValues(c), NirWeights(), i, NirValue(x));
    NirValuesDiffer(c[i], x);
    NirWeightIsPower(i);
    if (delta * Pow10(k)) % 97 == 0 { NinetySevenCancels(delta, k); }
    NinetySevenMoves(Weighted(NirValues(c), NirWeights()), delta * Pow10(k));
  }

  /** No single wrong character goes unnoticed, Corsican departments included. */
  lemma {:induction false} NirDetectsSubstitution(c: string, i: nat, x: char)
    requires IsNir(c) && i < 15 && x != c[i]
    ensures !IsNir(c[i := x])
  {
    NirCharacter(c, i);
    if IsNirCharacter(x) { NirSubstitutionMoves(c, i, x); }
    NirEquation(c);
    if IsNir(c[i := x]) {
      NirEquation(c[i := x]);
      NirCharacter(c[i := x], i);
    }
  }

  /** Neighbouring weights differ by nine times a power of ten, at the key's edge by minus nine. */
  lemma {:induction false} NirWeightGap(i: nat)
    requires i < 14
    ensures NirWeights()[i] - NirWeights()[i + 1] == if i == 12 then -9 else 9 * Pow10(if i < 12 then 11 - i else 0)
  {
    NirWeightIsPower(i);
    NirWeightIsPower(i + 1);
    assert Pow10(0) == 1 && Pow10(1) == 10 * Pow10(0);
    if i < 12 { assert Pow10(12 - i) == 10 * Pow10(11 - i); }
  }

  lemma {:induction false} NirTranspositionMoves(c: string, i: nat)
    requires |c| == 15 && i < 14 && IsNirCharacter(c[i]) && IsNirCharacter(c[i + 1]) && c[i] != c[i + 1]
    ensures Weighted(NirValues(Swapped(c, i)), NirWeights()) % 97 != Weighted(NirValues(c), NirWeights()) % 97
  {
    hide Weighted, Powers, Pow10;
    var delta := NirValue(c[i + 1]) - NirValue(c[i]);
    assert NirValues(Swapped(c, i)) == Swapped(NirValues(c), i);
    WeightedSwap(NirValues(c), NirWeights(), i);
    NirValuesDiffer(c[i], c[i + 1]);
    NirGapMatters(delta, i);
    NinetySevenMoves(Weighted(NirValues(c), NirWeights()), delta * (NirWeights()[i] - NirWeights()[i + 1]));
  }

  /** Nor does a swap of unequal neighbours, in the base, in the key or across them. */
  lemma {:induction false} NirDetectsTransposition(c: string, i: nat)
    requires IsNir(c) && i < 14 && c[i] != c[i + 1]
    ensures !IsNir(Swapped(c, i))
  {
    NirCharacter(c, i);
    NirCharacter(c, i + 1);
    NirTranspositionMoves(c, i);
    NirEquation(c);
    if IsNir(Swapped(c, i)) {
      NirEquation(Swapped(c, i));
    }
  }

  lemma {:induction false} NirGapMatters(d: int, i: nat)
    requires i < 14 && d != 0 && -12 < d < 12
    ensures (d * (NirWeights()[i] - NirWeights()[i + 1])) % 97 != 0
  {
    hide NirWeights, Pow10;
    NirWeightGap(i);
    NineMatters(d);
    if i != 12 { NinePowerMatters(d, if i < 12 then 11 - i else 0); }
  }

  lemma {:induction false} NineMatters(d: int)
    requires d != 0 && -12 < d < 12
    ensures (9 * d) % 97 != 0 && (d * -9) % 97 != 0
  {}

  lemma {:induction false} NinePowerMatters(d: int, k: nat)
    requires (9 * d) % 97 != 0
    ensures (d * (9 * Pow10(k))) % 97 != 0
  {
    Regroup(d, 9, Pow10(k));
    assert 9 * (d * Pow10(k)) == 9 * d * Pow10(k);
    if (9 * d * Pow10(k)) % 97 == 0 { NinetySevenCancels(9 * d, k); }
  }
}
