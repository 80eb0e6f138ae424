/** Model of `usu::weight`: a count of units whose size is a compile-time ratio of
    grams, with addition, subtraction and scaling of counts and a cast between unit
    ratios. Counts are unsigned integers of 32 or 64 bits, and every result is
    reduced to that width as the unsigned arithmetic of the count type does.
 */
module WeightUnits {

  import opened Arithmetic

  /** A `std::ratio`: the unit is `num / den` grams. */
  datatype Ratio = Ratio(num: nat, den: nat)
  {
    predicate Valid()
    {
      num >= 1 && den >= 1
    }
  }

  /** The unsigned count types the weights are instantiated with. */
  datatype CountType = U32 | U64
  {
    function Limit(): (m: nat)
      ensures m >= 0x1_0000_0000
    {
      match this
      case U32 => 0x1_0000_0000
      case U64 => 0x1_0000_0000_0000_0000
    }
  }

  /** `weight<R, T>`: a count of units of ratio R held in count type T. */
  datatype Weight = Weight(ratio: Ratio, countType: CountType, count: nat)
  {
    predicate Valid()
    {
      ratio.Valid() && count < countType.Limit()
    }

    /** Two weights of the same C++ type. */
    predicate SameType(other: Weight)
    {
      ratio == other.ratio && countType == other.countType
    }
  }

  /** The default constructor: a count of zero. */
  function Zero(ratio: Ratio, countType: CountType): (w: Weight)
    requires ratio.Valid()
    ensures w.Valid() && w.ratio == ratio && w.countType == countType
    ensures w.count == 0
  {
    Weight(ratio, countType, 0)
  }

  /** `weight(T count)`: keeps the given count (the source's `count ? count : 0`
      yields `count` for every value). */
  function FromCount(ratio: Ratio, countType: CountType, count: nat): (w: Weight)
    requires ratio.Valid() && count < countType.Limit()
    ensures w.Valid() && w.ratio == ratio && w.countType == countType
    ensures w.count == count
  {
    Weight(ratio, countType, if count != 0 then count else 0)
  }

  /** `operator+`: the sum of the counts, wrapping past the count type's limit. */
  function Plus(a: Weight, b: Weight): (r: Weight)
    requires a.Valid() && b.Valid() && a.SameType(b)
    ensures r.Valid() && r.SameType(a)
    ensures a.count + b.count < a.countType.Limit() ==> r.count == a.count + b.count
    ensures a.count + b.count >= a.countType.Limit() ==> r.count == a.count + b.count - a.countType.Limit()
  {
    FromCount(a.ratio, a.countType, (a.count + b.count) % a.countType.Limit())
  }

  /** `operator-` as written: the difference is taken in the unsigned count type, so it
      wraps below zero and the `diff < 0` clamp never applies. */
  function Minus(a: Weight, b: Weight): (r: Weight)
    requires a.Valid() && b.Valid() && a.SameType(b)
    ensures r.Valid() && r.SameType(a)
    ensures b.count <= a.count ==> r.count == a.count - b.count
    ensures a.count < b.count ==> r.count == a.count - b.count + a.countType.Limit()
  {
    FromCount(a.ratio, a.countType, (a.count - b.count) % a.countType.Limit())
  }

  /** Taking 11 from 4 with 32-bit counts wraps to 4294967289 rather than clamping to 0. */
  lemma MinusWraps()
    ensures Minus(Weight(Ratio(2, 1), U32, 4), Weight(Ratio(2, 1), U32, 11)).count == 4294967289
  {
  }

  /** `operator-` as its clamp intends: a difference below zero becomes zero. */
  function MinusClamped(a: Weight, b: Weight): (r: Weight)
    requires a.Valid() && b.Valid() && a.SameType(b)
    ensures r.Valid() && r.SameType(a)
    ensures r.count <= a.count
    ensures r.count == 0 <==> a.count <= b.count
    ensures b.count <= a.count ==> r.count + b.count == a.count
  {
    var diff := a.count - b.count;
    FromCount(a.ratio, a.countType, if diff < 0 then 0 else diff)
  }

  /** `weight * scalar`: the count times the scalar, reduced to the count type. */
  function ScaleRight(w: Weight, s: int): (r: Weight)
    requires w.Valid()
    ensures r.Valid() && r.SameType(w)
    ensures 0 <= w.count * s < w.countType.Limit() ==> r.count == w.count * s
    ensures (r.count - w.count * s) % w.countType.Limit() == 0
  {
    FromCount(w.ratio, w.countType, (w.count * s) % w.countType.Limit())
  }

  /** `scalar * weight`: the scalar times the count, reduced to the count type. */
  function ScaleLeft(s: int, w: Weight): (r: Weight)
    requires w.Valid()
    ensures r.Valid() && r.SameType(w)
    ensures 0 <= s * w.count < w.countType.Limit() ==> r.count == s * w.count
    ensures (r.count - s * w.count) % w.countType.Limit() == 0
  {
    FromCount(w.ratio, w.countType, (s * w.count) % w.countType.Limit())
  }

  /** Both orders of scalar multiplication give the same weight. */
  lemma ScaleCommutes(w: Weight, s: int)
    requires w.Valid()
    ensures ScaleLeft(s, w) == ScaleRight(w, s)
  {
  }

  /** The mass of `count` units of `from`, in units of `1 / (from.den * to.num)` grams,
      compared against units of `to`: the source's ratio `(to.den * from.num) /
      (to.num * from.den)` as an exact numerator and denominator. */
  function CastNumerator(from: Ratio, to: Ratio): nat
  {
    to.den * from.num
  }

  function CastDenominator(from: Ratio, to: Ratio): nat
  {
    to.num * from.den
  }

  /** `weight_cast<To>(from)`: the count of `to` units that `from` weighs, truncated
      toward zero. The result is the largest count of `to` units whose mass does not
      exceed the mass of `from`. */
  function WeightCast(to: Ratio, toType: CountType, from: Weight): (r: Weight)
    requires to.Valid() && from.Valid()
    requires from.count * CastNumerator(from.ratio, to) / CastDenominator(from.ratio, to) < toType.Limit()
    ensures r.Valid() && r.ratio == to && r.countType == toType
    ensures r.count * CastDenominator(from.ratio, to) <= from.count * CastNumerator(from.ratio, to)
    ensures from.count * CastNumerator(from.ratio, to) < (r.count + 1) * CastDenominator(from.ratio, to)
  {
    var d := CastDenominator(from.ratio, to);
    var n := from.count * CastNumerator(from.ratio, to);
    assert n == d * (n / d) + n % d;
    FromCount(to, toType, n / d)
  }

  /** Among natural numbers, `q * d <= n < (q + 1) * d` pins q down. */
  lemma QuotientUnique(n: nat, d: nat, q: nat, q': nat)
    requires d >= 1
    requires q * d <= n < (q + 1) * d
    requires q' * d <= n < (q' + 1) * d
    ensures q == q'
  {
    if q < q' {
      MulMonotone(d, q + 1, q');
    } else if q' < q {
      MulMonotone(d, q' + 1, q);
    }
  }

  /** Multiplying by d and dividing by d gives back the number. */
  lemma MulDivCancel(c: nat, d: nat)
    requires d >= 1
    ensures c * d / d == c
  {
    var n := c * d;
    assert n == d * (n / d) + n % d;
    QuotientUnique(n, d, n / d, c);
  }

  /** Casting to the weight's own ratio keeps its count. */
  lemma CastIdentity(w: Weight)
    requires w.Valid()
    ensures w.count * CastNumerator(w.ratio, w.ratio) / CastDenominator(w.ratio, w.ratio) == w.count
    ensures WeightCast(w.ratio, w.countType, w) == w
  {
    var d := CastDenominator(w.ratio, w.ratio);
    assert CastNumerator(w.ratio, w.ratio) == d;
    MulDivCancel(w.count, d);
  }

  /** Casting to a unit that divides the weight's own unit a whole number of times
      multiplies the count by that number, and casting back restores the weight. */
  lemma CastRoundTrip(w: Weight, to: Ratio, toType: CountType)
    requires w.Valid() && to.Valid()
    requires CastNumerator(w.ratio, to) % CastDenominator(w.ratio, to) == 0
    requires w.count * CastNumerator(w.ratio, to) / CastDenominator(w.ratio, to) < toType.Limit()
    ensures WeightCast(to, toType, w).count ==
      w.count * (CastNumerator(w.ratio, to) / CastDenominator(w.ratio, to))
    ensures WeightCast(to, toType, w).count * CastNumerator(to, w.ratio) / CastDenominator(to, w.ratio) == w.count
    ensures WeightCast(w.ratio, w.countType, WeightCast(to, toType, w)) == w
  {
    var c := w.count;
    var n := CastNumerator(w.ratio, to);
    var d := CastDenominator(w.ratio, to);
    var k := n / d;
    assert n == d * k + n % d;
    assert c * n == (c * k) * d;
    MulDivCancel(c * k, d);
    var down := WeightCast(to, toType, w);
    assert down.count == c * k;
    assert CastNumerator(to, w.ratio) == d && CastDenominator(to, w.ratio) == n;
    assert down.count * d == c * n;
    MulDivCancel(c, n);
  }

  /** The unit-test values: 11 + 4, 11 - 4, 11 - 0, 3 * 14, 4 * 5, identity casts,
      and casts between units of 4 grams and a third of a gram. */
  lemma TestedValues()
    ensures Plus(Weight(Ratio(2, 1), U32, 11), Weight(Ratio(2, 1), U32, 4)).count == 15
    ensures Minus(Weight(Ratio(2, 1), U32, 11), Weight(Ratio(2, 1), U32, 4)).count == 7
    ensures Minus(Weight(Ratio(2, 1), U32, 11), Zero(Ratio(2, 1), U32)).count == 11
    ensures ScaleLeft(3, Weight(Ratio(2, 1), U32, 14)).count == 42
    ensures ScaleRight(Weight(Ratio(2, 1), U32, 4), 5).count == 20
    ensures WeightCast(Ratio(5, 1), U64, Weight(Ratio(5, 1), U64, 10)).count == 10
    ensures WeightCast(Ratio(1, 2), U64, Weight(Ratio(1, 2), U64, 5)).count == 5
    ensures WeightCast(Ratio(1, 3), U32, Weight(Ratio(4, 1), U32, 15)).count == 180
    ensures WeightCast(Ratio(4, 1), U32, Weight(Ratio(1, 3), U32, 24)).count == 2
    ensures WeightCast(Ratio(4, 1), U32, Weight(Ratio(1, 3), U32, 39)).count == 3
  {
  }
}
