/** The bearing lookup table of the example renderer, and the bounds of its lookups. Angles
    and ranges are reals. */
module BearingLut {
  import opened Basics

  function Aperture(bearings: seq<real>): real
    requires |bearings| > 0
  {
    bearings[|bearings| - 1] - bearings[0]
  }

  function Scaled(k: real, x: real, n: real): real
    requires n != 0.0
  {
    k * x / n
  }

  /** The `b`-th of as many angles evenly spread over the aperture. */
  function LinearAngle(bearings: seq<real>, b: nat): real
    requires |bearings| >= 2
  {
    Scaled(Aperture(bearings), b as real, (|bearings| - 1) as real) + bearings[0]
  }

  /** `i` is the first index whose bearing is nearest to `angle`. */
  predicate FirstNearest(bearings: seq<real>, angle: real, i: nat) {
    && i < |bearings|
    && (forall j :: 0 <= j < i ==> Abs(bearings[j] - angle) > Abs(bearings[i] - angle))
    && (forall j :: i <= j < |bearings| ==> Abs(bearings[j] - angle) >= Abs(bearings[i] - angle))
  }

  predicate Sorted(bearings: seq<real>) {
    forall i, j :: 0 <= i < j < |bearings| ==> bearings[i] <= bearings[j]
  }

  /** The two loops that fill the table, with the store inside the inner one. For a single
      bearing the angle is 0/0, but nothing is compared with it, and entry 0 stays as made. */
  method BuildLut(bearings: seq<real>) returns (lut: seq<nat>)
    requires |bearings| >= 1
    ensures |lut| == |bearings|
    ensures |bearings| == 1 ==> lut == [0]
    ensures |bearings| >= 2 ==>
      forall b :: 0 <= b < |lut| ==> FirstNearest(bearings, LinearAngle(bearings, b), lut[b])
  {
    lut := seq(|bearings|, _ => 0);
    var b := 0;
    while b < |bearings|
      invariant b <= |bearings| == |lut|
      invariant |bearings| == 1 ==> lut == [0]
      invariant |bearings| >= 2 ==>
                  forall c :: 0 <= c < b ==> FirstNearest(bearings, LinearAngle(bearings, c), lut[c])
    {
      var bearingAngle := if |bearings| >= 2 then LinearAngle(bearings, b) else 0.0;
      var idx := 0;
      var minDiff := Abs(bearings[0] - bearingAngle);
      var i := 1;
      while i < |bearings|
        invariant 1 <= i <= |bearings| == |lut|
        invariant idx < i && minDiff == Abs(bearings[idx] - bearingAngle)
        invariant FirstNearest(bearings[..i], bearingAngle, idx)
        invariant i > 1 ==> lut[b] == idx
        invariant |bearings| == 1 ==> lut == [0]
        invariant |bearings| >= 2 ==>
                    forall c :: 0 <= c < b ==> FirstNearest(bearings, LinearAngle(bearings, c), lut[c])
      {
        var diff := Abs(bearings[i] - bearingAngle);
        if diff < minDiff {
          minDiff := diff;
          idx := i;
        }
        lut := lut[b := idx];
        i := i + 1;
      }
      assert bearings[..i] == bearings;
      b := b + 1;
    }
  }

  /** If the smaller of two bearings is the farther one from an angle, it is so from every
      larger angle. */
  lemma NoInversion(bearings: seq<real>, a: real, b: real, i: nat, j: nat)
    requires Sorted(bearings) && a <= b && i < |bearings| && j < |bearings|
    ensures j < i && Abs(bearings[j] - a) > Abs(bearings[i] - a) ==> Abs(bearings[j] - b) > Abs(bearings[i] - b)
  {
    assert j < i ==> bearings[j] <= bearings[i];
  }

  lemma NearestMonotone(bearings: seq<real>, a: real, b: real, i: nat, j: nat)
    requires Sorted(bearings) && a <= b
    requires FirstNearest(bearings, a, i) && FirstNearest(bearings, b, j)
    ensures i <= j
  {
    NoInversion(bearings, a, b, i, j);
  }

  lemma AnglesIncrease(bearings: seq<real>, b: nat, c: nat)
    requires |bearings| >= 2 && Aperture(bearings) >= 0.0 && b <= c
    ensures LinearAngle(bearings, b) <= LinearAngle(bearings, c)
  {
    var a, n := Aperture(bearings), (|bearings| - 1) as real;
    ScaleLe(b as real, c as real, a);
    DivLe(a * b as real, a * c as real, n);
  }

  lemma ScaleLe(x: real, y: real, k: real)
    requires x <= y && k >= 0.0
    ensures k * x <= k * y
  {
    assert k * (y - x) >= 0.0;
  }

  lemma DivLe(x: real, y: real, n: real)
    requires x <= y && n > 0.0
    ensures x / n <= y / n
  {
    var p, q := x / n, y / n;
    assert x == n * p && y == n * q;
    if p > q {
      ScaleLt(q, p, n);
    }
  }

  lemma ScaleLt(x: real, y: real, k: real)
    requires x < y && k > 0.0
    ensures k * x < k * y
  {
    assert k * (y - x) > 0.0;
  }

  /** The table of a sonar whose bearings are sorted is monotone. */
  lemma LutMonotone(bearings: seq<real>, lut: seq<nat>, b: nat, c: nat)
    requires |bearings| >= 2 && Sorted(bearings) && |lut| == |bearings|
    requires forall k :: 0 <= k < |lut| ==> FirstNearest(bearings, LinearAngle(bearings, k), lut[k])
    requires b <= c < |lut|
    ensures lut[b] <= lut[c]
  {
    assert bearings[0] <= bearings[|bearings| - 1];
    AnglesIncrease(bearings, b, c);
    NearestMonotone(bearings, LinearAngle(bearings, b), LinearAngle(bearings, c), lut[b], lut[c]);
  }

  /** The linear angles run from the first bearing to the last in equal steps. */
  lemma AnglesSpreadEvenly(bearings: seq<real>, b: nat)
    requires |bearings| >= 2
    ensures LinearAngle(bearings, 0) == bearings[0]
    ensures LinearAngle(bearings, |bearings| - 1) == bearings[|bearings| - 1]
    ensures LinearAngle(bearings, b + 1) - LinearAngle(bearings, b) == Aperture(bearings) / (|bearings| - 1) as real
  {
    var a, n := Aperture(bearings), (|bearings| - 1) as real;
    assert a * 0.0 / n == 0.0 && a * n / n == a;
    SumOfQuotients(a, b as real, n);
  }

  lemma SumOfQuotients(a: real, b: real, n: real)
    requires n > 0.0
    ensures a * (b + 1.0) / n - a * b / n == a / n
  {
    assert a * (b + 1.0) == a * b + a;
  }

  // ---------------------------------------------------------------- lookups

  /** A conversion to an unsigned integer drops the fraction; None where the value does not
      fit, that is from -1 downwards. */
  datatype Index = OutOfRange | At(index: nat)

  function Truncate(x: real): Index {
    if x <= -1.0 then OutOfRange else if x < 0.0 then At(0) else At(x.Floor)
  }

  predicate InTable(i: Index, size: nat) {
    i.At? && i.index < size
  }

  function BearingIndex(bearings: seq<real>, bearing: real): Index
    requires |bearings| >= 2 && Aperture(bearings) > 0.0
  {
    Truncate(Scaled((|bearings| - 1) as real, bearing - bearings[0], Aperture(bearings)))
  }

  function RangeIndex(nRanges: nat, range: real, maxRange: real): Index
    requires maxRange > 0.0 && nRanges > 0
  {
    Truncate(Scaled((nRanges - 1) as real, range, maxRange))
  }

  /** The bearings that the renderer does not reject as outside of the fan. */
  predicate InFan(bearings: seq<real>, bearing: real)
    requires |bearings| > 0
  {
    Abs(bearing) <= Aperture(bearings) / 2.0
  }

  lemma ScaledInTable(x: real, limit: real, n: nat)
    requires n > 0 && limit > 0.0 && 0.0 <= x <= limit
    ensures InTable(Truncate((n - 1) as real * x / limit), n)
  {
    ScaledQuotient((n - 1) as real, x, limit);
    FloorInTable((n - 1) as real * x / limit, n);
  }

  lemma FloorInTable(y: real, n: nat)
    requires n > 0 && 0.0 <= y <= (n - 1) as real
    ensures InTable(Truncate(y), n)
  {
  }

  lemma ScaledQuotient(k: real, x: real, limit: real)
    requires k >= 0.0 && limit > 0.0 && 0.0 <= x <= limit
    ensures 0.0 <= k * x / limit <= k
  {
    ScaleLe(0.0, x, k);
    ScaleLe(x, limit, k);
    QuotientAtLeast(k * x, limit, 0.0);
    QuotientAtMost(k * x, limit, k);
  }

  lemma QuotientAtLeast(p: real, n: real, low: real)
    requires n > 0.0 && low * n <= p
    ensures low <= p / n
  {
    QuotientBelow(p, n, low);
  }

  lemma QuotientAtMost(p: real, n: real, high: real)
    requires n > 0.0 && p <= high * n
    ensures p / n <= high
  {
    QuotientAbove(p, n, high);
  }

  /** For a symmetric fan every lookup the renderer makes is in bounds, in the table, in the
      ranges, and in the array of samples. */
  lemma SymmetricFanInBounds(bearings: seq<real>, lut: seq<nat>, nRanges: nat, bearing: real, range: real,
                             maxRange: real)
    requires |bearings| >= 2 && Aperture(bearings) > 0.0 && bearings[0] == -bearings[|bearings| - 1]
    requires |lut| == |bearings| && forall b :: 0 <= b < |lut| ==> lut[b] < |bearings|
    requires nRanges > 0 && 0.0 <= range <= maxRange && maxRange > 0.0 && InFan(bearings, bearing)
    ensures InTable(BearingIndex(bearings, bearing), |lut|) && InTable(RangeIndex(nRanges, range, maxRange), nRanges)
    ensures |bearings| * RangeIndex(nRanges, range, maxRange).index + lut[BearingIndex(bearings, bearing).index]
          < |bearings| * nRanges
  {
    hide Truncate;
    BearingInTable(bearings, bearing);
    ScaledInTable(range, maxRange, nRanges);
    var b, r := BearingIndex(bearings, bearing), RangeIndex(nRanges, range, maxRange);
    SampleInArray(|bearings|, r.index, nRanges, lut[b.index]);
  }

  lemma BearingInTable(bearings: seq<real>, bearing: real)
    requires |bearings| >= 2 && Aperture(bearings) > 0.0 && bearings[0] == -bearings[|bearings| - 1]
    requires InFan(bearings, bearing)
    ensures InTable(BearingIndex(bearings, bearing), |bearings|)
  {
    AllInTableIffNearlySymmetric(bearings);
  }

  lemma SampleInArray(nBeams: nat, r: nat, nRanges: nat, b: nat)
    requires r < nRanges && b < nBeams
    ensures nBeams * r + b < nBeams * nRanges
  {
    assert nBeams * (r + 1) == nBeams * r + nBeams;
    TimesLe(r + 1, nRanges, nBeams);
  }

  /** What the lookups mean: the entry for a bearing is the last whose linear angle does not lie
      beyond it, and the line for a range the last whose distance does not, with the lines
      spread evenly up to the maximum range. */
  lemma LookupsBracket(bearings: seq<real>, bearing: real, nRanges: nat, range: real, maxRange: real)
    requires |bearings| >= 2 && Aperture(bearings) > 0.0 && bearing >= bearings[0]
    requires nRanges > 1 && range >= 0.0 && maxRange > 0.0
    ensures var b := BearingIndex(bearings, bearing);
            b.At? && LinearAngle(bearings, b.index) <= bearing < LinearAngle(bearings, b.index + 1)
    ensures var r, n := RangeIndex(nRanges, range, maxRange), (nRanges - 1) as real;
            r.At? && Scaled(maxRange, r.index as real, n) <= range < Scaled(maxRange, (r.index + 1) as real, n)
  {
    hide Scaled, Truncate;
    Bracket((|bearings| - 1) as real, bearing - bearings[0], Aperture(bearings));
    Bracket((nRanges - 1) as real, range, maxRange);
  }

  lemma Bracket(k: real, x: real, limit: real)
    requires k > 0.0 && x >= 0.0 && limit > 0.0
    ensures var i := Truncate(Scaled(k, x, limit));
            i.At? && Scaled(limit, i.index as real, k) <= x < Scaled(limit, (i.index + 1) as real, k)
  {
    ScaleLe(0.0, x, k);
    QuotientAtLeast(k * x, limit, 0.0);
    var i := Scaled(k, x, limit).Floor;
    FloorBounds(k, x, limit, i as real, (i + 1) as real);
  }

  lemma FloorBounds(k: real, x: real, limit: real, low: real, high: real)
    requires k > 0.0 && limit > 0.0 && low <= Scaled(k, x, limit) < high
    ensures Scaled(limit, low, k) <= x < Scaled(limit, high, k)
  {
    QuotientBelow(k * x, limit, low);
    QuotientBelow(k * x, limit, high);
    Swap(k, x, limit, low, high);
    QuotientAbove(limit * low, k, x);
    QuotientAbove(limit * high, k, x);
    QuotientBelow(limit * high, k, x);
  }

  lemma Swap(k: real, x: real, limit: real, low: real, high: real)
    ensures low * limit == limit * low && high * limit == limit * high && x * k == k * x
  {
  }

  /** How far the middle of the fan is off straight ahead. */
  function Offset(bearings: seq<real>): real
    requires |bearings| > 0
  {
    (bearings[0] + bearings[|bearings| - 1]) / 2.0
  }

  /** For any other fan: every bearing that passes the renderer's test is looked up inside the
      table iff the fan is off centre by less than one step between linear angles. */
  lemma AllInTableIffNearlySymmetric(bearings: seq<real>)
    requires |bearings| >= 2 && Aperture(bearings) > 0.0
    ensures (forall bearing :: InFan(bearings, bearing) ==> InTable(BearingIndex(bearings, bearing), |bearings|))
       <==> Abs(Offset(bearings)) * (|bearings| - 1) as real < Aperture(bearings)
  {
    hide BearingIndex, Truncate, InTable, Inside;
    var a, k, c := Aperture(bearings), (|bearings| - 1) as real, Offset(bearings);
    assert bearings[0] == c - a / 2.0;
    if Abs(c) * k < a {
      forall bearing | InFan(bearings, bearing) ensures InTable(BearingIndex(bearings, bearing), |bearings|) {
        EdgeIndex(bearings, bearing);
        InsideAll(k, a, c, bearing - bearings[0]);
      }
    } else {
      EdgeIndex(bearings, -a / 2.0);
      EdgeIndex(bearings, a / 2.0);
      OutsideSomewhere(k, a, c);
      assert -a / 2.0 - bearings[0] == -c && a / 2.0 - bearings[0] == a - c;
      assert InFan(bearings, -a / 2.0) && InFan(bearings, a / 2.0);
    }
  }

  /** `k` steps to the angle `x` above the first bearing stay strictly between -1 and `k + 1`
      apertures. */
  predicate Inside(k: real, a: real, x: real) {
    -a < k * x < k * a + a
  }

  lemma InsideAll(k: real, a: real, c: real, x: real)
    requires k >= 0.0 && a > 0.0 && Abs(c) * k < a && -c <= x <= a - c
    ensures Inside(k, a, x)
  {
    ScaledLow(x, c, k);
    ScaledHigh(x, c, a, k);
    AbsScaled(k, c, a);
    Chain(k * x, k * a, k * c, a);
  }

  lemma OutsideSomewhere(k: real, a: real, c: real)
    requires k >= 0.0 && a > 0.0 && Abs(c) * k >= a
    ensures !Inside(k, a, -c) || !Inside(k, a, a - c)
  {
    AbsScaled(k, c, a);
    assert k * -c == -(k * c);
    assert k * (a - c) == k * a - k * c;
  }

  lemma Chain(kx: real, ka: real, kc: real, a: real)
    requires -kc <= kx <= ka - kc && -a < kc < a
    ensures -a < kx < ka + a
  {
  }

  lemma AbsScaled(k: real, c: real, a: real)
    requires k >= 0.0
    ensures Abs(c) * k < a <==> -a < k * c < a
  {
    if c >= 0.0 {
      ScaleLe(0.0, c, k);
      assert Abs(c) * k == k * c;
    } else {
      ScaleLe(c, 0.0, k);
      assert Abs(c) * k == -(k * c);
    }
  }

  lemma ScaledLow(x: real, y: real, k: real)
    requires k >= 0.0 && x + y >= 0.0
    ensures k * x >= -(k * y)
  {
    ScaleLe(0.0, x + y, k);
    assert k * (x + y) == k * x + k * y;
  }

  lemma ScaledHigh(x: real, y: real, z: real, k: real)
    requires k >= 0.0 && x + y <= z
    ensures k * x <= k * z - k * y
  {
    ScaleLe(x + y, z, k);
    assert k * (x + y) == k * x + k * y;
  }

  /** The lookup without its division: inside iff strictly between -1 and n steps. */
  lemma EdgeIndex(bearings: seq<real>, bearing: real)
    requires |bearings| >= 2 && Aperture(bearings) > 0.0
    ensures InTable(BearingIndex(bearings, bearing), |bearings|)
       <==> Inside((|bearings| - 1) as real, Aperture(bearings), bearing - bearings[0])
  {
    var a := Aperture(bearings);
    var x := (|bearings| - 1) as real * (bearing - bearings[0]);
    var k := (|bearings| - 1) as real;
    assert |bearings| as real * a == (k + 1.0) * a == k * a + a;
    QuotientBelow(x, a, |bearings| as real);
    QuotientAbove(x, a, -1.0);
  }

  lemma QuotientBelow(x: real, a: real, limit: real)
    requires a > 0.0
    ensures x / a < limit <==> x < limit * a
  {
    assert x == x / a * a;
    if x / a < limit {
      ScaleLt(x / a, limit, a);
    } else {
      ScaleLe(limit, x / a, a);
    }
  }

  lemma QuotientAbove(x: real, a: real, limit: real)
    requires a > 0.0
    ensures limit < x / a <==> limit * a < x
  {
    assert x == x / a * a;
    if limit < x / a {
      ScaleLt(limit, x / a, a);
    } else {
      ScaleLe(x / a, limit, a);
    }
  }
}
