/**
 * The EQ settings' value scaler: device values (bass and treble in -10..10,
 * balance on the mirrored axis 100..-100) to slider percentages and back, the
 * balance label and the loudness toggle.
 *
 * JavaScript's `Math.round(x)` is `floor(x + 1/2)`. Every quotient here has
 * integer operands, so it is computed exactly on integers.
 */
module EqScale {

  /** `r` is `n / d` rounded to the nearest integer, halves towards +infinity. */
  predicate NearestHalfUp(n: int, d: int, r: int) {
    if d > 0 then d * (2 * r - 1) <= 2 * n < d * (2 * r + 1)
    else d * (2 * r + 1) < 2 * n <= d * (2 * r - 1)
  }

  function RoundPositive(n: int, d: int): (r: int)
    requires d > 0
    ensures d * (2 * r - 1) <= 2 * n < d * (2 * r + 1)
  {
    var q := (2 * n + d) / (2 * d);
    var m := (2 * n + d) % (2 * d);
    assert 2 * n + d == (2 * d) * q + m && 0 <= m < 2 * d;
    assert d * (2 * q - 1) == (2 * d) * q - d;
    assert d * (2 * q + 1) == (2 * d) * q + d;
    q
  }

  /** `Math.round(n / d)` for integers `n` and `d`. */
  function RoundQuotient(n: int, d: int): (r: int)
    requires d != 0
    ensures NearestHalfUp(n, d, r)
  {
    if d > 0 then RoundPositive(n, d)
    else
      var r := RoundPositive(-n, -d);
      assert (-d) * (2 * r - 1) == -(d * (2 * r - 1)) && (-d) * (2 * r + 1) == -(d * (2 * r + 1));
      r
  }

  lemma MulMonotone(d: int, a: int, b: int)
    requires d > 0 && a <= b
    ensures d * a <= d * b
  {
    assert d * b - d * a == d * (b - a);
  }

  /** The rounded quotient is the only integer that is nearest, halves up. */
  lemma RoundQuotientUnique(n: int, d: int, r: int)
    requires d != 0 && NearestHalfUp(n, d, r)
    ensures RoundQuotient(n, d) == r
  {
    var q := RoundQuotient(n, d);
    var e := if d > 0 then d else -d;
    if q < r {
      MulMonotone(e, 2 * q + 1, 2 * r - 1);
    } else if r < q {
      MulMonotone(e, 2 * r + 1, 2 * q - 1);
    }
  }

  /** Rounding a quotient with a positive divisor is monotone in the dividend. */
  lemma RoundPositiveMonotone(n1: int, n2: int, d: int)
    requires d > 0 && n1 <= n2
    ensures RoundQuotient(n1, d) <= RoundQuotient(n2, d)
  {
    var r1, r2 := RoundQuotient(n1, d), RoundQuotient(n2, d);
    if r2 < r1 {
      MulMonotone(d, 2 * r2 + 1, 2 * r1 - 1);
    }
  }

  /** Dividing an exact multiple rounds to the multiplier. */
  lemma RoundExactMultiple(k: int, d: int)
    requires d != 0
    ensures RoundQuotient(k * d, d) == k
  {
    assert d * (2 * k - 1) == 2 * (k * d) - d && d * (2 * k + 1) == 2 * (k * d) + d;
    RoundQuotientUnique(k * d, d, k);
  }

  /** Hundredths between `100 * lo` and `100 * hi` round to a value between `lo` and `hi`. */
  lemma RoundHundredthsBetween(n: int, lo: int, hi: int)
    requires lo * 100 <= n <= hi * 100
    ensures lo <= RoundQuotient(n, 100) <= hi
  {
    RoundExactMultiple(lo, 100);
    RoundExactMultiple(hi, 100);
    RoundPositiveMonotone(lo * 100, n, 100);
    RoundPositiveMonotone(n, hi * 100, 100);
  }

  /**
   * `toPercentage`: the device value `input` as a percentage of the way from
   * `min` to `max`, rounded as `Math.round` does; `min` is at 0 and `max` at 100.
   */
  function ToPercentage(input: int, min: int, max: int): (p: int)
    requires min != max
    ensures NearestHalfUp((input - min) * 100, max - min, p)
    ensures input == min ==> p == 0
    ensures input == max ==> p == 100
  {
    var d := max - min;
    RoundExactMultiple(0, d);
    RoundExactMultiple(100, d);
    assert input == max ==> (input - min) * 100 == 100 * d;
    RoundQuotient((input - min) * 100, d)
  }

  /**
   * `fromPercentage`: the device value `percentage` percent of the way from
   * `min` to `max`, rounded; 0 gives `min`, 100 gives `max`, and a percentage in
   * 0..100 gives a value between the two.
   */
  function FromPercentage(percentage: int, min: int, max: int): (v: int)
    ensures NearestHalfUp(percentage * (max - min) + 100 * min, 100, v)
    ensures percentage == 0 ==> v == min
    ensures percentage == 100 ==> v == max
    ensures 0 <= percentage <= 100 ==> Between(v, min, max)
  {
    var n := percentage * (max - min) + 100 * min;
    RoundExactMultiple(min, 100);
    RoundExactMultiple(max, 100);
    assert percentage == 100 ==> n == max * 100;
    if 0 <= percentage <= 100 then
      if min < max then
        MulMonotone(max - min, 0, percentage);
        MulMonotone(max - min, percentage, 100);
        assert (max - min) * percentage == percentage * (max - min);
        RoundHundredthsBetween(n, min, max);
        RoundQuotient(n, 100)
      else if max < min then
        MulMonotone(min - max, 0, percentage);
        MulMonotone(min - max, percentage, 100);
        assert (min - max) * percentage == -(percentage * (max - min));
        RoundHundredthsBetween(n, max, min);
        RoundQuotient(n, 100)
      else
        RoundQuotient(n, 100)
    else
      RoundQuotient(n, 100)
  }

  /** `v` lies on the closed segment between `min` and `max`, whichever way round they are. */
  predicate Between(v: int, min: int, max: int) {
    (min <= v <= max) || (max <= v <= min)
  }

  /** A value inside the range maps to a percentage in 0..100. */
  lemma ScaleRange(v: int, min: int, max: int)
    requires min != max && Between(v, min, max)
    ensures 0 <= ToPercentage(v, min, max) <= 100
  {
    var lo, hi := ToPercentage(min, min, max), ToPercentage(max, min, max);
    var d := max - min;
    var n := (v - min) * 100;
    if d > 0 {
      assert 0 <= n <= (max - min) * 100;
      RoundPositiveMonotone(0, n, d);
      RoundPositiveMonotone(n, (max - min) * 100, d);
    } else {
      assert (max - min) * 100 <= n <= 0;
      RoundPositiveMonotone(0, -n, -d);
      RoundPositiveMonotone(-n, -((max - min) * 100), -d);
      assert RoundQuotient(n, d) == RoundQuotient(-n, -d);
      assert RoundQuotient(0, d) == RoundQuotient(0, -d);
      assert RoundQuotient((max - min) * 100, d) == RoundQuotient(-((max - min) * 100), -d);
    }
  }

  /** The error of the percentage: twice its scaled-back value minus twice the distance from `min`, in hundredths. */
  lemma PercentageError(v: int, min: int, max: int)
    requires min != max
    ensures var p := ToPercentage(v, min, max); var e := 2 * (p * (max - min)) - 200 * (v - min);
      if max - min > 0 then -(max - min) < e <= max - min else max - min <= e < -(max - min)
  {
    var p := ToPercentage(v, min, max);
    var d := max - min;
    assert d * (2 * p - 1) == 2 * (p * d) - d;
    assert d * (2 * p + 1) == 2 * (p * d) + d;
  }

  /**
   * A range of at most 100 steps survives the round trip through a percentage
   * exactly, for every integer input (bass and treble: 20 steps).
   */
  lemma RoundTripExact(v: int, min: int, max: int)
    requires min != max && -100 <= max - min <= 100
    ensures FromPercentage(ToPercentage(v, min, max), min, max) == v
  {
    var p := ToPercentage(v, min, max);
    var d := max - min;
    PercentageError(v, min, max);
    var e := 2 * (p * d) - 200 * (v - min);
    if d == 100 {
      assert p * d == 100 * p;
    }
    if d == -100 {
      assert p * d == -100 * p;
    }
    assert -100 <= e < 100;
    assert 100 * (2 * v - 1) <= 2 * (p * d + 100 * min) < 100 * (2 * v + 1);
    RoundQuotientUnique(p * d + 100 * min, 100, v);
  }

  /** A range of at most 200 steps (balance) survives the round trip to within one step. */
  lemma RoundTripWithinOne(v: int, min: int, max: int)
    requires min != max && -200 <= max - min <= 200
    ensures v - 1 <= FromPercentage(ToPercentage(v, min, max), min, max) <= v + 1
  {
    var p := ToPercentage(v, min, max);
    var d := max - min;
    PercentageError(v, min, max);
    var r := FromPercentage(p, min, max);
    assert 100 * (2 * r - 1) <= 2 * (p * d + 100 * min) < 100 * (2 * r + 1);
  }

  /** The controls bound to sliders, with the ranges the settings panel passes. */
  datatype Control = Bass | Treble | Balance

  function Min(c: Control): int {
    match c
    case Bass => -10
    case Treble => -10
    case Balance => 100
  }

  function Max(c: Control): int {
    match c
    case Bass => 10
    case Treble => 10
    case Balance => -100
  }

  function Name(c: Control): string {
    match c
    case Bass => "bass"
    case Treble => "treble"
    case Balance => "balance"
  }

  /** The slider position shown for a control's value. */
  function SliderPosition(c: Control, value: int): int {
    ToPercentage(value, Min(c), Max(c))
  }

  /** The request `_changeValue` sends to the device-control collaborator. */
  datatype SetValue = SetValue(host: string, name: string, value: int)

  /** What a slider drag to `percentage` sends. */
  function DragRequest(host: string, c: Control, percentage: int): (r: SetValue)
    ensures r.host == host && r.name == Name(c)
    ensures 0 <= percentage <= 100 ==> Between(r.value, Min(c), Max(c))
    ensures percentage == 0 ==> r.value == Min(c)
    ensures percentage == 100 ==> r.value == Max(c)
  {
    SetValue(host, Name(c), FromPercentage(percentage, Min(c), Max(c)))
  }

  /** Bass and treble sit at 5 percent a step, and a drag back to the shown position sends the value itself. */
  lemma ToneSlider(host: string, c: Control, v: int)
    requires c != Balance && -10 <= v <= 10
    ensures SliderPosition(c, v) == 5 * (v + 10)
    ensures 0 <= SliderPosition(c, v) <= 100
    ensures DragRequest(host, c, SliderPosition(c, v)).value == v
  {
    assert 20 * (2 * (5 * (v + 10)) - 1) <= 2 * ((v - -10) * 100) < 20 * (2 * (5 * (v + 10)) + 1);
    RoundQuotientUnique((v - -10) * 100, 20, 5 * (v + 10));
    RoundTripExact(v, -10, 10);
  }

  /**
   * Balance: centre at 50 percent, in-range values in 0..100, and the round trip
   * returns even values exactly and odd values one step lower.
   */
  lemma BalanceSlider(host: string, v: int)
    requires -100 <= v <= 100
    ensures SliderPosition(Balance, 0) == 50
    ensures 0 <= SliderPosition(Balance, v) <= 100
    ensures DragRequest(host, Balance, SliderPosition(Balance, v)).value == if v % 2 == 0 then v else v - 1
  {
    RoundQuotientUnique((0 - 100) * 100, -200, 50);
    ScaleRange(v, 100, -100);
    var n := (v - 100) * 100;
    var k := (100 - v) / 2;
    if v % 2 == 0 {
      assert 100 - v == 2 * k;
      RoundQuotientUnique(n, -200, k);
      RoundQuotientUnique(k * -200 + 100 * 100, 100, v);
    } else {
      assert 100 - v == 2 * k + 1;
      RoundQuotientUnique(n, -200, k + 1);
      RoundQuotientUnique((k + 1) * -200 + 100 * 100, 100, v - 1);
    }
  }

  /** The magnitude in the balance label, `100 - |(|b| - 100)|`. */
  function BalanceMagnitude(b: int): (m: int)
    ensures m <= 100
    ensures -100 <= b <= 100 ==> m == if b < 0 then -b else b
  {
    var a := if b < 0 then -b else b;
    100 - (if a - 100 < 0 then 100 - a else a - 100)
  }

  /** The side in the balance label. */
  function BalanceSide(b: int): (side: string)
    ensures side == "L" <==> b > 0
    ensures side == "R" <==> b < 0
    ensures side == "" <==> b == 0
  {
    if b == 0 then "" else if b > 0 then "L" else "R"
  }

  /** The loudness value the checkbox sends when changed: off when it was 1, on otherwise. */
  function LoudnessToggle(current: int): (next: int)
    ensures next == 0 || next == 1
    ensures next == 0 <==> current == 1
  {
    if current == 1 then 0 else 1
  }

  /** The request the loudness checkbox sends. */
  function LoudnessRequest(host: string, current: int): (r: SetValue)
    ensures r.host == host && r.name == "loudness"
    ensures (current == 0 || current == 1) ==> r.value == 1 - current
  {
    SetValue(host, "loudness", LoudnessToggle(current))
  }
}
