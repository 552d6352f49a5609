/** Buckets on one axis: which bucket a value goes to, and which values a bucket is for. */
module HistogramAxis {
  import opened MachineInts

  datatype Scale = Linear | Log2

  datatype Axis = Axis(scale: Scale, min: int, quant: int, buckets: int)

  /** What the histogram's constructor asserts of an axis, and the types of its fields. */
  predicate ValidAxis(ac: Axis) {
    && 0 < ac.buckets <= INT32_MAX && 0 < ac.quant <= INT64_MAX
    && INT64_MIN <= ac.min <= INT64_MAX
  }

  function Pow2(n: nat): (r: nat)
    ensures r > 0
  {
    if n == 0 then 1 else 2 * Pow2(n - 1)
  }

  lemma {:induction false} Pow2Grows(i: nat, j: nat)
    requires i <= j
    ensures Pow2(i) <= Pow2(j)
    decreases j
  {
    if i < j {
      Pow2Grows(i, j - 1);
    }
  }

  lemma Pow2Plus8(n: nat)
    ensures Pow2(n + 8) == 256 * Pow2(n)
  {
    Pow2Plus4(n);
    Pow2Plus4(n + 4);
  }

  lemma Pow2Plus4(n: nat)
    ensures Pow2(n + 4) == 16 * Pow2(n)
  {
    assert Pow2(n + 1) == 2 * Pow2(n);
    assert Pow2(n + 2) == 2 * Pow2(n + 1);
    assert Pow2(n + 3) == 2 * Pow2(n + 2);
  }

  lemma Pow2At62()
    ensures Pow2(62) == 0x4000_0000_0000_0000
  {
    assert Pow2(6) == 64 by {
      assert Pow2(1) == 2 && Pow2(2) == 4;
      Pow2Plus4(2);
    }
    hide Pow2;
    Pow2Plus8(6);
    Pow2Plus8(14);
    Pow2Plus8(22);
    Pow2Plus8(30);
    Pow2Plus8(38);
    Pow2Plus8(46);
    Pow2Plus8(54);
  }

  /** Which powers of two a 64-bit integer can hold: those that `1 << n` yields for n up to 62. */
  lemma Pow2Fits(n: nat)
    ensures Pow2(n) <= INT64_MAX <==> n <= 62
    ensures Pow2(62) == 0x4000_0000_0000_0000
  {
    Pow2At62();
    assert Pow2(63) == 2 * Pow2(62);
    if n <= 62 {
      Pow2Grows(n, 62);
    } else {
      Pow2Grows(63, n);
    }
  }

  function Quants(i: nat, st: Scale): nat
    requires i > 0
  {
    match st
    case Linear => i
    case Log2 => Pow2(i - 1)
  }

  lemma {:induction false} QuantsGrow(i: nat, j: nat, st: Scale)
    requires 0 < i < j
    ensures Quants(i, st) < Quants(j, st)
    decreases j
  {
    if i + 1 < j {
      QuantsGrow(i, j - 1, st);
    }
  }

  /** The least value beyond bucket `i`. */
  function Edge(ac: Axis, i: nat): int {
    if i == 0 then ac.min else ac.min + Quants(i, ac.scale) * ac.quant
  }

  function Low(ac: Axis, b: nat): int {
    if b == 0 then INT64_MIN else Edge(ac, b - 1)
  }

  function High(ac: Axis, b: nat): int {
    if b == ac.buckets - 1 then INT64_MAX else Edge(ac, b) - 1
  }

  lemma EdgesGrow(ac: Axis, i: nat, j: nat)
    requires ValidAxis(ac)
    requires i < j
    ensures Edge(ac, i) < Edge(ac, j)
  {
    if i == 0 {
      Scaled(0, Quants(j, ac.scale), ac.quant);
    } else {
      QuantsGrow(i, j, ac.scale);
      Scaled(Quants(i, ac.scale), Quants(j, ac.scale), ac.quant);
    }
  }

  lemma Scaled(a: int, b: int, q: int)
    requires a < b && q > 0
    ensures a * q < b * q
  {
  }

  /** A quotient is below `n` exactly if the dividend is below `n` times the divisor. */
  lemma QuotientBelow(x: int, q: int, n: int)
    requires x >= 0 && q > 0
    ensures x / q < n <==> x < n * q
  {
    var d := x / q;
    assert x == d * q + x % q;
    if d < n {
      Scaled(d, d + 1, q);
      assert (d + 1) * q <= n * q by {
        if d + 1 < n {
          Scaled(d + 1, n, q);
        }
      }
    } else if n < d {
      Scaled(n, d, q);
    }
  }

  ghost predicate Within(ac: Axis, b: int, value: int) {
    0 <= b < ac.buckets && Low(ac, b) <= value <= High(ac, b)
  }

  /** The ranges do not overlap: no value is in two of them. */
  lemma BucketsAreDisjoint(ac: Axis, a: int, b: int, value: int)
    requires ValidAxis(ac)
    requires Within(ac, a, value) && Within(ac, b, value)
    ensures a == b
  {
    if a != b {
      var lo, hi := if a < b then a else b, if a < b then b else a;
      if lo + 1 < hi {
        EdgesGrow(ac, lo, hi - 1);
      }
    }
  }

  /** The ranges in numbers: equal steps on a linear axis, doubling ones on a logarithmic axis. */
  lemma RangesAre(ac: Axis, b: nat)
    requires ValidAxis(ac) && b < ac.buckets
    ensures b == 0 ==> Low(ac, b) == -0x8000_0000_0000_0000
    ensures b == 1 ==> Low(ac, b) == ac.min
    ensures b > 0 && ac.scale == Linear ==> Low(ac, b) == ac.min + (b - 1) * ac.quant
    ensures b > 1 && ac.scale == Log2 ==> Low(ac, b) == ac.min + Pow2(b - 2) * ac.quant
    ensures b == 2 && ac.scale == Log2 ==> Low(ac, b) == ac.min + ac.quant
    ensures b > 2 && ac.scale == Log2 ==> Low(ac, b) - ac.min == 2 * (Low(ac, b - 1) - ac.min)
    ensures b + 1 < ac.buckets ==> High(ac, b) + 1 == Low(ac, b + 1)
    ensures b + 1 == ac.buckets ==> High(ac, b) == 0x7fff_ffff_ffff_ffff
  {
    if b > 2 && ac.scale == Log2 {
      assert Pow2(b - 2) == 2 * Pow2(b - 3);
      Twice(Pow2(b - 3), ac.quant);
    }
  }

  lemma Twice(a: int, q: int)
    ensures (2 * a) * q == 2 * (a * q)
  {
  }

  /** `get_quants`; the shift it makes for a logarithmic scale is by at most 62. */
  method GetQuants(i: int64, st: Scale) returns (q: int64)
    requires i > 0 && Quants(i as int, st) <= INT64_MAX
    ensures q as int == Quants(i as int, st)
  {
    match st
    case Linear => q := i;
    case Log2 =>
      Pow2Fits(i as int - 1);
      q := Pow2(i as int - 1) as int64;
  }

  /**
   The values that can be quantized without a 64-bit overflow: the difference to the axis
   minimum fits, the next bucket number fits, and no shift is by more than 62.
   */
  predicate Fits(value: int, ac: Axis)
    requires ac.quant > 0
  {
    value >= ac.min ==>
      && value - ac.min <= INT64_MAX
      && match ac.scale
         case Linear => (value - ac.min) / ac.quant < INT64_MAX
         case Log2 => ac.buckets <= 64 || (value - ac.min) / ac.quant < Pow2(62)
  }

  /** C division, which rounds toward zero. */
  function TruncDiv(a: int, b: int): int
    requires b > 0
  {
    if a >= 0 then a / b else -(-a / b)
  }

  /** The number of quanta between the axis minimum and a value, if an overflow wraps around. */
  function Distance(value: int, ac: Axis): int
    requires ac.quant > 0
  {
    TruncDiv(Wrap64(value - ac.min), ac.quant)
  }

  /** No shift is by more than 62. */
  predicate ShiftsFit(value: int, ac: Axis)
    requires ac.quant > 0
  {
    ac.scale == Log2 && value >= ac.min ==> ac.buckets <= 64 || Distance(value, ac) < Pow2(62)
  }

  /** The first bucket from `i` on whose quanta exceed `v`, or else the last. */
  function FirstBeyond(v: int, i: nat, buckets: int): int
    requires i > 0
    decreases buckets - i
  {
    if i >= buckets then buckets - 1 else if v < Pow2(i - 1) then i else FirstBeyond(v, i + 1, buckets)
  }

  /** The bucket that the code computes if a 64-bit overflow wraps around. */
  function WrappedBucket(value: int, ac: Axis): int
    requires ac.quant > 0
  {
    if value < ac.min then 0
    else match ac.scale
         case Linear =>
           var next := Wrap64(Distance(value, ac) + 1);
           if next < ac.buckets - 1 then next else ac.buckets - 1
         case Log2 => FirstBeyond(Distance(value, ac), 1, ac.buckets)
  }

  /** Bucket 0 is for values below the axis, the last one for everything beyond it. */
  method GetBucketForAxis(value: int64, ac: Axis) returns (b: int64)
    requires ValidAxis(ac) && ShiftsFit(value as int, ac)
    ensures b as int == WrappedBucket(value as int, ac)
    ensures Fits(value as int, ac) ==> Within(ac, b as int, value as int)
  {
    hide Within, Fits, FirstBeyond, Pow2;
    BucketIff(value as int, ac);
    if value as int < ac.min {
      return 0;
    }
    DistanceFits(value as int, ac);
    var v := Wrap64(value as int - ac.min) as int64;
    v := TruncDiv(v as int, ac.quant) as int64;
    match ac.scale
    case Linear =>
      var next := Wrap64(v as int + 1) as int64;
      b := if next < ac.buckets as int64 - 1 then next else ac.buckets as int64 - 1;
    case Log2 =>
      b := FindLog2(v, ac.buckets as int64);
  }

  method FindLog2(v: int64, buckets: int64) returns (b: int64)
    requires buckets > 0 && (buckets <= 64 || v as int < Pow2(62))
    ensures b as int == FirstBeyond(v as int, 1, buckets as int)
  {
    var i: int64 := 1;
    while i < buckets
      invariant 1 <= i as int <= 64 && (i == 1 || i <= buckets)
      invariant i > 1 ==> v as int >= Pow2(i as int - 2)
      invariant FirstBeyond(v as int, 1, buckets as int) == FirstBeyond(v as int, i as int, buckets as int)
    {
      Pow2Fits(i as int - 1);
      var q := GetQuants(i, Log2);
      if v < q {
        return i;
      }
      i := i + 1;
    }
    b := buckets - 1;
  }

  lemma DistanceFits(value: int, ac: Axis)
    requires ValidAxis(ac)
    ensures INT64_MIN <= Distance(value, ac) <= INT64_MAX
  {
    var d := Wrap64(value - ac.min);
    QuotientSmall(if d >= 0 then d else -d, ac.quant);
  }

  /** The small overflows that end in the open last bucket of an axis of one or two buckets. */
  predicate Forgiven(value: int, ac: Axis)
    requires ac.quant > 0
  {
    && ac.buckets <= 2 && value - ac.min > INT64_MAX
    && (ac.scale == Linear ==> Wrap64(value - ac.min) > (ac.buckets - 3) * ac.quant)
  }

  /** With wrap-around the bucket contains the value exactly if the value fits or is forgiven. */
  lemma BucketIff(value: int, ac: Axis)
    requires ValidAxis(ac) && INT64_MIN <= value <= INT64_MAX && ShiftsFit(value, ac)
    ensures Within(ac, WrappedBucket(value, ac), value) <==> Fits(value, ac) || Forgiven(value, ac)
  {
    if value >= ac.min {
      match ac.scale
      case Linear =>
        if value - ac.min <= INT64_MAX {
          LinearInRange(value, ac);
        } else {
          LinearWraps(value, ac);
        }
      case Log2 =>
        if value - ac.min <= INT64_MAX {
          Log2InRange(value, ac, 1);
        } else {
          Log2Wraps(value, ac);
        }
    }
  }

  /** The search finds the bucket whatever the number of buckets. */
  lemma {:induction false} Log2InRange(value: int, ac: Axis, i: nat)
    requires ValidAxis(ac) && ac.scale == Log2 && 0 <= value - ac.min && value <= INT64_MAX
    requires i > 0 && (i == 1 || i <= ac.buckets) && value >= Edge(ac, i - 1)
    ensures Within(ac, FirstBeyond((value - ac.min) / ac.quant, i, ac.buckets), value)
    decreases ac.buckets - i
  {
    var v := (value - ac.min) / ac.quant;
    if i >= ac.buckets {
      if ac.buckets >= 2 {
        EdgesGrow(ac, ac.buckets - 2, ac.buckets - 1);
      }
    } else {
      QuotientBelow(value - ac.min, ac.quant, Pow2(i - 1));
      if v >= Pow2(i - 1) {
        Log2InRange(value, ac, i + 1);
      }
    }
  }

  /** An overflow leaves no positive distance, so the search stops at bucket 1. */
  lemma Log2Wraps(value: int, ac: Axis)
    requires ValidAxis(ac) && ac.scale == Log2 && value - ac.min > INT64_MAX && value <= INT64_MAX
    ensures Within(ac, WrappedBucket(value, ac), value) <==> ac.buckets <= 2
  {
    var d := Wrap64(value - ac.min);
    QuotientSmall(-d, ac.quant);
    assert Pow2(0) == 1;
    assert Quants(1, Log2) == 1;
  }

  /** An axis and a value that do not fit: the bucket number wraps around to a negative one. */
  lemma OverflowEscapes(ac: Axis)
    requires ac == Axis(Linear, -2, 1, 10)
    ensures ValidAxis(ac) && !Fits(INT64_MAX, ac)
    ensures WrappedBucket(INT64_MAX, ac) < 0
  {
  }

  /** On a logarithmic axis the same value is put next to the minimum. */
  lemma OverflowComesFirst(ac: Axis)
    requires ac == Axis(Log2, -2, 1, 10)
    ensures ValidAxis(ac) && !Fits(INT64_MAX, ac)
    ensures WrappedBucket(INT64_MAX, ac) == 1 && High(ac, 1) == -2
  {
    assert Pow2(0) == 1;
  }

  lemma LinearInRange(value: int, ac: Axis)
    requires ValidAxis(ac) && ac.scale == Linear && 0 <= value - ac.min <= INT64_MAX && value <= INT64_MAX
    ensures Within(ac, WrappedBucket(value, ac), value) <==> Fits(value, ac)
  {
    var d, b := value - ac.min, WrappedBucket(value, ac);
    QuotientSmall(d, ac.quant);
    QuotientBelow(d, ac.quant, b);
    QuotientBelow(d, ac.quant, b - 1);
  }

  lemma LinearWraps(value: int, ac: Axis)
    requires ValidAxis(ac) && ac.scale == Linear && value - ac.min > INT64_MAX && value <= INT64_MAX
    ensures Within(ac, WrappedBucket(value, ac), value) <==>
            ac.buckets <= 2 && Wrap64(value - ac.min) > (ac.buckets - 3) * ac.quant
  {
    var d := Wrap64(value - ac.min);
    QuotientSmall(-d, ac.quant);
    QuotientBelow(-d, ac.quant, 1);
    QuotientBelow(-d, ac.quant, 2);
  }

  lemma QuotientSmall(x: int, q: int)
    requires x >= 0 && q > 0
    ensures 0 <= x / q <= x
  {
    QuotientBelow(x, q, 0);
    QuotientBelow(x, q, x + 1);
    assert (x + 1) * q >= x + 1 by {
      if q > 1 { Scaled(1, q, x + 1); }
    }
  }

  /** The axes whose reported ranges can be computed without a 64-bit overflow. */
  predicate RangesFit(ac: Axis) {
    && ac.min > INT64_MIN
    && (ac.buckets >= 3 ==>
          Quants(ac.buckets - 2, ac.scale) * ac.quant <= INT64_MAX && Edge(ac, ac.buckets - 2) <= INT64_MAX)
  }

  lemma EdgeFits(ac: Axis, i: nat)
    requires ValidAxis(ac) && RangesFit(ac)
    requires 1 <= i < ac.buckets - 1
    ensures Quants(i, ac.scale) <= Quants(i, ac.scale) * ac.quant <= INT64_MAX
    ensures ac.min < Edge(ac, i) <= INT64_MAX
  {
    var n, m := Quants(i, ac.scale), Quants(ac.buckets - 2, ac.scale);
    if i < ac.buckets - 2 {
      QuantsGrow(i, ac.buckets - 2, ac.scale);
      Scaled(n, m, ac.quant);
    }
    EdgesGrow(ac, 0, i);
    if ac.quant > 1 {
      Scaled(1, ac.quant, n);
    }
  }

  /** The inclusive range of each bucket, as they are reported. */
  method GetAxisBucketRanges(ac: Axis) returns (ret: array<(int64, int64)>)
    requires ValidAxis(ac) && RangesFit(ac)
    ensures ret.Length == ac.buckets
    ensures forall b :: 0 <= b < ac.buckets ==> ret[b].0 as int == Low(ac, b) && ret[b].1 as int == High(ac, b)
  {
    ret := new (int64, int64)[ac.buckets];
    var min := ac.min as int64;
    var i: int64 := 1;
    while i < ac.buckets as int64 - 1
      invariant 1 <= i && (i == 1 || i as int <= ac.buckets - 1)
      invariant min as int == Edge(ac, i as int - 1)
      invariant forall b :: 1 <= b < i as int && b < ac.buckets - 1 ==> ret[b].0 as int == Low(ac, b) && ret[b].1 as int == High(ac, b)
    {
      EdgeFits(ac, i as int);
      var q := GetQuants(i, ac.scale);
      var maxExclusive := ac.min as int64 + q * ac.quant as int64;
      ret[i] := (min, maxExclusive - 1);
      min := maxExclusive;
      i := i + 1;
    }
    var last := ac.buckets - 1;
    ret[0] := (ret[0].0, ac.min as int64 - 1);
    ret[last] := (min, ret[last].1);
    ret[0] := (INT64_MIN as int64, ret[0].1);
    ret[last] := (ret[last].0, INT64_MAX as int64);
  }

  /** Above the axis minimum plus the largest difference nothing can be quantized, and nothing else is lost. */
  lemma FitsUpTo(value: int, ac: Axis)
    requires ValidAxis(ac) && ac.quant >= 2 && (ac.scale == Log2 ==> ac.buckets <= 64)
    ensures Fits(value, ac) <==> value - ac.min <= INT64_MAX
  {
    if ac.min <= value && value - ac.min <= INT64_MAX {
      QuotientBelow(value - ac.min, ac.quant, INT64_MAX);
      Scaled(1, ac.quant, INT64_MAX);
    }
  }
}

/** A histogram over any number of axes, kept in one array. */
module Histogram {
  import opened MachineInts
  import opened HistogramAxis

  type Buckets = seq<int>

  ghost predicate ValidAxes(axes: seq<Axis>) {
    forall i :: 0 <= i < |axes| ==> ValidAxis(axes[i])
  }

  /** One bucket number per axis, each in range. */
  ghost predicate InRange(axes: seq<Axis>, bs: Buckets) {
    |bs| == |axes| && forall i :: 0 <= i < |axes| ==> 0 <= bs[i] < axes[i].buckets
  }

  // ---------------------------------------------------------------- mixed-radix arithmetic

  function Size(axes: seq<Axis>): int {
    if axes == [] then 1 else axes[0].buckets * Size(axes[1..])
  }

  /** `get_raw_index_internal`: one digit per axis, most significant first. */
  function Index(axes: seq<Axis>, bs: Buckets, start: int): int
    requires |bs| == |axes|
  {
    if axes == [] then start else Index(axes[1..], bs[1..], axes[0].buckets * start + bs[0])
  }

  /** The digits of a raw index. */
  function Digits(axes: seq<Axis>, r: int): Buckets
    requires ValidAxes(axes)
  {
    if axes == [] then []
    else
      SizePositive(axes[1..]);
      [r / Size(axes[1..])] + Digits(axes[1..], r % Size(axes[1..]))
  }

  lemma {:induction false} SizePositive(axes: seq<Axis>)
    requires ValidAxes(axes)
    ensures Size(axes) > 0
  {
    if axes != [] {
      SizePositive(axes[1..]);
      Scaled(0, axes[0].buckets, Size(axes[1..]));
    }
  }

  lemma {:induction false} SizeSnoc(axes: seq<Axis>, ac: Axis)
    ensures Size(axes + [ac]) == Size(axes) * ac.buckets
  {
    if axes == [] {
      assert axes + [ac] == [ac];
      assert [ac][1..] == [];
      assert Size([ac]) == ac.buckets * Size([]);
    } else {
      assert (axes + [ac])[1..] == axes[1..] + [ac];
      SizeSnoc(axes[1..], ac);
      Associate(axes[0].buckets, Size(axes[1..]), ac.buckets);
    }
  }

  lemma Associate(a: int, b: int, c: int)
    ensures a * (b * c) == (a * b) * c
  {
  }

  lemma Distribute(a: int, b: int, c: int)
    ensures (a + b) * c == a * c + b * c
  {
  }

  lemma {:induction false} IndexFrom(axes: seq<Axis>, bs: Buckets, start: int)
    requires |bs| == |axes|
    ensures Index(axes, bs, start) == start * Size(axes) + Index(axes, bs, 0)
  {
    if axes != [] {
      var b, n := axes[0].buckets, Size(axes[1..]);
      IndexFrom(axes[1..], bs[1..], b * start + bs[0]);
      IndexFrom(axes[1..], bs[1..], bs[0]);
      assert b * 0 + bs[0] == bs[0];
      Distribute(b * start, bs[0], n);
      assert (b * start) * n == start * (b * n) by {
        Associate(start, b, n);
        assert b * start == start * b;
      }
    }
  }

  lemma {:induction false} IndexInRange(axes: seq<Axis>, bs: Buckets)
    requires ValidAxes(axes) && InRange(axes, bs)
    ensures 0 <= Index(axes, bs, 0) < Size(axes)
  {
    if axes != [] {
      var n := Size(axes[1..]);
      SizePositive(axes[1..]);
      IndexInRange(axes[1..], bs[1..]);
      assert axes[0].buckets * 0 + bs[0] == bs[0];
      IndexFrom(axes[1..], bs[1..], bs[0]);
      Product(bs[0], n);
      if bs[0] + 1 < axes[0].buckets {
        Scaled(bs[0] + 1, axes[0].buckets, n);
      }
      Distribute(bs[0], 1, n);
    }
  }

  lemma Product(a: int, b: int)
    requires a >= 0 && b >= 0
    ensures a * b >= 0
  {
  }

  lemma DivideBack(d: int, n: int, r: int)
    requires n > 0 && 0 <= r < n
    ensures (d * n + r) / n == d && (d * n + r) % n == r
  {
    var x := d * n + r;
    assert x == (x / n) * n + x % n;
    if x / n < d {
      Distribute(x / n, 1, n);
      if x / n + 1 < d { Scaled(x / n + 1, d, n); }
    } else if d < x / n {
      Distribute(d, 1, n);
      if d + 1 < x / n { Scaled(d + 1, x / n, n); }
    }
  }

  /** Reading the digits undoes the index. */
  lemma {:induction false} DigitsOfIndex(axes: seq<Axis>, bs: Buckets)
    requires ValidAxes(axes) && InRange(axes, bs)
    ensures Digits(axes, Index(axes, bs, 0)) == bs
  {
    if axes != [] {
      SizePositive(axes[1..]);
      IndexInRange(axes[1..], bs[1..]);
      assert axes[0].buckets * 0 + bs[0] == bs[0];
      IndexFrom(axes[1..], bs[1..], bs[0]);
      DivideBack(bs[0], Size(axes[1..]), Index(axes[1..], bs[1..], 0));
      DigitsOfIndex(axes[1..], bs[1..]);
    }
  }

  /** The last axis is the innermost: its neighbours are neighbours in the array. */
  lemma {:induction false} LastAxisIsInnermost(axes: seq<Axis>, bs: Buckets, ac: Axis, b: int, start: int)
    requires |bs| == |axes|
    ensures Index(axes + [ac], bs + [b], start) == ac.buckets * Index(axes, bs, start) + b
    decreases |axes|
  {
    if axes == [] {
      assert axes + [ac] == [ac] && bs + [b] == [b];
      assert [ac][1..] == [] && [b][1..] == [];
      assert Index([ac], [b], start) == Index([], [], ac.buckets * start + b);
    } else {
      assert (axes + [ac])[1..] == axes[1..] + [ac] && (bs + [b])[1..] == bs[1..] + [b];
      LastAxisIsInnermost(axes[1..], bs[1..], ac, b, axes[0].buckets * start + bs[0]);
    }
  }

  /** Every cell of the array is the cell of some bucket vector. */
  lemma {:induction false} IndexOfDigits(axes: seq<Axis>, r: int)
    requires ValidAxes(axes)
    requires 0 <= r < Size(axes)
    ensures InRange(axes, Digits(axes, r))
    ensures Index(axes, Digits(axes, r), 0) == r
  {
    if axes != [] {
      var n := Size(axes[1..]);
      SizePositive(axes[1..]);
      QuotientBelow(r, n, axes[0].buckets);
      Divide(r, n);
      IndexOfDigits(axes[1..], r % n);
      PutDigit(axes, r / n, Digits(axes[1..], r % n));
    }
  }

  lemma Divide(r: int, n: int)
    requires r >= 0 && n > 0
    ensures 0 <= r / n && 0 <= r % n < n && r == (r / n) * n + r % n
  {
  }

  lemma PutDigit(axes: seq<Axis>, d: int, bs: Buckets)
    requires axes != [] && ValidAxes(axes) && InRange(axes[1..], bs)
    requires 0 <= d < axes[0].buckets
    ensures InRange(axes, [d] + bs)
    ensures Index(axes, [d] + bs, 0) == d * Size(axes[1..]) + Index(axes[1..], bs, 0)
  {
    var ds := [d] + bs;
    assert ds[1..] == bs;
    forall i | 0 <= i < |axes|
      ensures 0 <= ds[i] < axes[i].buckets
    {
      if i > 0 {
        assert ds[i] == bs[i - 1] && axes[i] == axes[1..][i - 1];
      }
    }
    assert axes[0].buckets * 0 + d == d;
    IndexFrom(axes[1..], bs, d);
  }

  /** The index is injective: two bucket vectors share a cell only if they are the same. */
  lemma IndexIsInjective(axes: seq<Axis>, a: Buckets, b: Buckets)
    requires ValidAxes(axes) && InRange(axes, a) && InRange(axes, b)
    ensures Index(axes, a, 0) == Index(axes, b, 0) <==> a == b
  {
    DigitsOfIndex(axes, a);
    DigitsOfIndex(axes, b);
  }

  lemma {:induction false} IndexSnoc(axes: seq<Axis>, bs: Buckets, ac: Axis, b: int, start: int)
    requires |bs| == |axes|
    ensures Index(axes + [ac], bs + [b], start) == ac.buckets * Index(axes, bs, start) + b
  {
    if axes == [] {
      assert axes + [ac] == [ac] && bs + [b] == [b];
      assert [ac][1..] == [] && [b][1..] == [];
    } else {
      assert (axes + [ac])[1..] == axes[1..] + [ac];
      assert (bs + [b])[1..] == bs[1..] + [b];
      IndexSnoc(axes[1..], bs[1..], ac, b, axes[0].buckets * start + bs[0]);
    }
  }

  lemma {:induction false} SizeSplit(axes: seq<Axis>, k: nat)
    requires k <= |axes|
    ensures Size(axes) == Size(axes[..k]) * Size(axes[k..])
  {
    if k == 0 {
      assert axes[..0] == [] && axes[0..] == axes;
    } else {
      SizeSplit(axes[1..], k - 1);
      assert axes[1..][..k - 1] == axes[..k][1..];
      assert axes[1..][k - 1..] == axes[k..];
      Associate(axes[0].buckets, Size(axes[..k][1..]), Size(axes[k..]));
    }
  }

  /** The first cell below the `i`-th choice of the first `k` digits. */
  function Cell(axes: seq<Axis>, k: nat, i: int): int
    requires k <= |axes|
  {
    i * Size(axes[k..])
  }

  /** The cells below the first `k` digits `at` are one stretch of the array. */
  lemma Stretch(axes: seq<Axis>, k: nat, at: Buckets)
    requires ValidAxes(axes) && k <= |axes| && InRange(axes[..k], at)
    ensures var i := Index(axes[..k], at, 0);
            0 <= i < Size(axes) && 0 <= Cell(axes, k, i) <= Cell(axes, k, i + 1) <= Size(axes)
  {
    var i, n, m := Index(axes[..k], at, 0), Size(axes[..k]), Size(axes[k..]);
    IndexInRange(axes[..k], at);
    SizePositive(axes[k..]);
    SizeSplit(axes, k);
    Product(i, m);
    Distribute(i, 1, m);
    if i + 1 < n {
      Scaled(i + 1, n, m);
    }
    assert n <= n * m by {
      if 1 < m { Scaled(1, m, n); }
      assert m * n == n * m;
    }
  }

  /** The stretch of `at` is the stretches of its extensions by one digit, put together. */
  lemma Row(axes: seq<Axis>, k: nat, at: Buckets)
    requires ValidAxes(axes) && k < |axes| && InRange(axes[..k], at)
    ensures var i, b := Index(axes[..k], at, 0), axes[k].buckets;
            && Cell(axes, k, i) == Cell(axes, k + 1, i * b)
            && Cell(axes, k, i + 1) == Cell(axes, k + 1, i * b + b)
            && 0 <= i * b <= i * b + b <= Size(axes)
  {
    hide Index, Size;
    var i, b, n := Index(axes[..k], at, 0), axes[k].buckets, Size(axes[k + 1..]);
    SizeFrom(axes, k);
    Stretch(axes, k, at);
    SizePositive(axes[k + 1..]);
    RowOf(i, b, n);
  }

  lemma SizeFrom(axes: seq<Axis>, k: nat)
    requires k < |axes|
    ensures Size(axes[k..]) == axes[k].buckets * Size(axes[k + 1..])
  {
    assert axes[k..][0] == axes[k] && axes[k..][1..] == axes[k + 1..];
  }

  lemma RowOf(i: int, b: int, n: int)
    requires i >= 0 && b > 0 && n > 0
    ensures i * (b * n) == (i * b) * n && (i + 1) * (b * n) == (i * b + b) * n
    ensures 0 <= i * b <= i * b + b <= (i * b + b) * n
  {
    Associate(i, b, n);
    Associate(i + 1, b, n);
    Distribute(i, 1, b);
    Product(i, b);
    if 1 < n {
      Scaled(1, n, i * b + b);
      assert n * (i * b + b) == (i * b + b) * n;
    }
  }

  /** Extending the digits by one. */
  lemma Below(axes: seq<Axis>, k: nat, at: Buckets, d: int)
    requires ValidAxes(axes) && k < |axes| && InRange(axes[..k], at)
    requires 0 <= d < axes[k].buckets
    ensures InRange(axes[..k + 1], at + [d])
    ensures Index(axes[..k + 1], at + [d], 0) == Index(axes[..k], at, 0) * axes[k].buckets + d
  {
    assert axes[..k + 1] == axes[..k] + [axes[k]];
    IndexSnoc(axes[..k], at, axes[k], d, 0);
  }

  // ---------------------------------------------------------------- what the counters mean

  ghost predicate AllInRange(axes: seq<Axis>, incs: seq<Buckets>) {
    forall k :: 0 <= k < |incs| ==> InRange(axes, incs[k])
  }

  /** The cells after the increments `incs`, from a reset. */
  ghost function Fill(axes: seq<Axis>, incs: seq<Buckets>): (cells: seq<int>)
    requires ValidAxes(axes) && AllInRange(axes, incs)
    ensures |cells| == Size(axes)
  {
    SizePositive(axes);
    if incs == [] then seq(Size(axes), _ => 0)
    else
      var b := incs[|incs| - 1];
      IndexInRange(axes, b);
      Bump(Fill(axes, incs[..|incs| - 1]), Index(axes, b, 0))
  }

  const TWO64: int := 0x1_0000_0000_0000_0000

  /** What is left of a number in a 64-bit word. */
  function Word(x: int): (r: int)
    ensures 0 <= x < 0x1_0000_0000_0000_0000 ==> r == x
  {
    x % 0x1_0000_0000_0000_0000
  }

  lemma WordStep(x: int)
    ensures Word(Word(x) + 1) == Word(x + 1)
  {
  }

  /** One more in cell `i`; the counters are 64-bit words and wrap around. */
  function Bump(cells: seq<int>, i: int): seq<int>
    requires 0 <= i < |cells|
  {
    cells[i := Word(cells[i] + 1)]
  }

  lemma NothingCounted(bs: Buckets)
    ensures Word(multiset([])[bs]) == 0
  {
  }

  lemma CountNext(init: seq<Buckets>, b: Buckets, bs: Buckets)
    ensures multiset(init + [b])[bs] == multiset(init)[bs] + if b == bs then 1 else 0
  {
  }

  /** Each cell counts the increments of its own bucket vector and no others, modulo 2^64. */
  lemma {:induction false} FillCounts(axes: seq<Axis>, incs: seq<Buckets>, bs: Buckets)
    requires ValidAxes(axes) && AllInRange(axes, incs) && InRange(axes, bs)
    ensures 0 <= Index(axes, bs, 0) < Size(axes)
    ensures Fill(axes, incs)[Index(axes, bs, 0)] == Word(multiset(incs)[bs])
  {
    hide Word, Index, Size;
    IndexInRange(axes, bs);
    if incs == [] {
      NothingCounted(bs);
    } else {
      var init, b := incs[..|incs| - 1], incs[|incs| - 1];
      IndexInRange(axes, b);
      IndexIsInjective(axes, b, bs);
      WordStep(multiset(init)[bs]);
      FillCounts(axes, init, bs);
      CountNext(init, b, bs);
      assert incs == init + [b];
    }
  }

  /** Sum of the first `n` cells whose bucket vector satisfies `p`. */
  ghost function SumWhere(axes: seq<Axis>, cells: seq<int>, p: Buckets -> bool, n: nat): int
    requires ValidAxes(axes) && n <= |cells|
  {
    if n == 0 then 0
    else SumWhere(axes, cells, p, n - 1) + if p(Digits(axes, n - 1)) then cells[n - 1] else 0
  }

  ghost function CountWhere(incs: seq<Buckets>, p: Buckets -> bool): nat {
    if incs == [] then 0
    else CountWhere(incs[..|incs| - 1], p) + if p(incs[|incs| - 1]) then 1 else 0
  }

  lemma {:induction false} BumpSum(axes: seq<Axis>, cells: seq<int>, p: Buckets -> bool, i: nat, n: nat)
    requires ValidAxes(axes) && i < |cells| && n <= |cells|
    ensures SumWhere(axes, Bump(cells, i), p, n) ==
            SumWhere(axes, cells, p, n) + if i < n && p(Digits(axes, i)) then Word(cells[i] + 1) - cells[i] else 0
  {
    if n > 0 {
      BumpSum(axes, cells, p, i, n - 1);
    }
  }

  lemma {:induction false} ZeroSum(axes: seq<Axis>, cells: seq<int>, p: Buckets -> bool, n: nat)
    requires ValidAxes(axes) && n <= |cells|
    requires forall i :: 0 <= i < n ==> cells[i] == 0
    ensures SumWhere(axes, cells, p, n) == 0
  {
    if n > 0 {
      ZeroSum(axes, cells, p, n - 1);
    }
  }

  /**
   Summing the cells over any choice of bucket vectors counts the increments that fall into
   the choice: with `p` always true the total, with `p` fixing one axis a marginal.  The sum is
   exact below 2^64 increments, and off by a multiple of 2^64 at worst.
   */
  lemma {:induction false} SumsCountIncrements(axes: seq<Axis>, incs: seq<Buckets>, p: Buckets -> bool)
    requires ValidAxes(axes) && AllInRange(axes, incs)
    ensures Word(SumWhere(axes, Fill(axes, incs), p, Size(axes))) == Word(CountWhere(incs, p))
    ensures |incs| < TWO64 ==> SumWhere(axes, Fill(axes, incs), p, Size(axes)) == CountWhere(incs, p)
  {
    hide Word;
    SizePositive(axes);
    if incs == [] {
      ZeroSum(axes, Fill(axes, incs), p, Size(axes));
    } else {
      var init, b := incs[..|incs| - 1], incs[|incs| - 1];
      SumsCountIncrements(axes, init, p);
      IndexInRange(axes, b);
      DigitsOfIndex(axes, b);
      FillCounts(axes, init, b);
      CountAtMost(init, b);
      BumpSum(axes, Fill(axes, init), p, Index(axes, b, 0), Size(axes));
      var sum := SumWhere(axes, Fill(axes, init), p, Size(axes));
      StepModulo(sum, CountWhere(init, p), multiset(init)[b]);
    }
  }

  lemma CountAtMost(incs: seq<Buckets>, b: Buckets)
    ensures multiset(incs)[b] <= |incs|
  {
    assert |multiset(incs)| == |incs|;
    assert multiset(incs) == multiset(incs)[b := 0] + multiset{}[b := multiset(incs)[b]];
  }

  lemma WordDown(x: int)
    ensures Word(x - TWO64) == Word(x)
  {
  }

  /** A step of a counter word changes a sum, modulo 2^64, by one. */
  lemma StepModulo(sum: int, count: int, cell: nat)
    requires Word(sum) == Word(count)
    ensures Word(sum + (Word(Word(cell) + 1) - Word(cell))) == Word(count + 1)
  {
    var w := Word(cell);
    WordRange(cell);
    WordStep(sum);
    WordStep(count);
    if w + 1 == TWO64 {
      WordDown(w + 1);
      WordDown(sum + 1);
    }
    hide Word;
    assert Word(sum + 1) == Word(count + 1);
    assert Word(w + 1) == if w + 1 == TWO64 then Word(0) else w + 1;
    assert Word(0) == 0;
    assert sum + (Word(w + 1) - w) == if w + 1 == TWO64 then sum + 1 - TWO64 else sum + 1;
  }

  lemma WordRange(x: int)
    ensures 0 <= Word(x) < TWO64
  {
  }

  // ---------------------------------------------------------------- visiting

  /** What the three callbacks see; `at` is the bucket vector the traversal is at. */
  datatype Visit = Enter(level: int) | Value(at: Buckets, value: int) | Leave(level: int)

  /** The visited cells, as index and value, in the order they are visited. */
  function Cells(axes: seq<Axis>, vs: seq<Visit>): seq<(int, int)> {
    if vs == [] then []
    else CellOf(axes, vs[0]) + Cells(axes, vs[1..])
  }

  function CellOf(axes: seq<Axis>, v: Visit): seq<(int, int)> {
    if v.Value? && |v.at| == |axes| then [(Index(axes, v.at, 0), v.value)] else []
  }

  /** The cells from `lo` up to `hi`, in order. */
  function Slice(raw: seq<int>, lo: int, hi: int): seq<(int, int)>
    requires 0 <= lo <= hi <= |raw|
  {
    seq(hi - lo, k requires 0 <= k < hi - lo => (lo + k, raw[lo + k]))
  }

  lemma EmptySlice(raw: seq<int>, lo: int)
    requires 0 <= lo <= |raw|
    ensures Slice(raw, lo, lo) == []
  {
  }

  lemma SliceConcat(raw: seq<int>, lo: int, mid: int, hi: int)
    requires 0 <= lo <= mid <= hi <= |raw|
    ensures Slice(raw, lo, mid) + Slice(raw, mid, hi) == Slice(raw, lo, hi)
  {
  }

  lemma {:induction false} CellsConcat(axes: seq<Axis>, a: seq<Visit>, b: seq<Visit>)
    ensures Cells(axes, a + b) == Cells(axes, a) + Cells(axes, b)
  {
    if a == [] {
      assert a + b == b;
    } else {
      assert (a + b)[1..] == a[1..] + b;
      CellsConcat(axes, a[1..], b);
    }
  }

  /** The level after the visits, starting at `level`; -1 if they do not nest properly. */
  function LevelAfter(vs: seq<Visit>, level: int, dim: int): int
    decreases |vs|
  {
    if vs == [] then level
    else match vs[0]
         case Enter(l) => if l == level then LevelAfter(vs[1..], level + 1, dim) else -1
         case Value(_, _) => if level == dim then LevelAfter(vs[1..], level, dim) else -1
         case Leave(l) => if level > 0 && l == level - 1 then LevelAfter(vs[1..], level - 1, dim) else -1
  }

  lemma {:induction false} LevelConcat(a: seq<Visit>, b: seq<Visit>, level: int, dim: int)
    requires LevelAfter(a, level, dim) >= 0
    ensures LevelAfter(a + b, level, dim) == LevelAfter(b, LevelAfter(a, level, dim), dim)
    decreases |a|
  {
    if a == [] {
      assert a + b == b;
    } else {
      assert (a + b)[1..] == a[1..] + b;
      match a[0]
      case Enter(_) => LevelConcat(a[1..], b, level + 1, dim);
      case Value(_, _) => LevelConcat(a[1..], b, level, dim);
      case Leave(_) => LevelConcat(a[1..], b, level - 1, dim);
    }
  }

  // ---------------------------------------------------------------- counting values

  ghost predicate ShiftsFitAll(axes: seq<Axis>, values: seq<int64>) {
    |values| == |axes| &&
    forall i :: 0 <= i < |axes| ==> axes[i].quant > 0 && ShiftsFit(values[i] as int, axes[i])
  }

  ghost predicate FitAll(axes: seq<Axis>, values: seq<int64>) {
    |values| == |axes| &&
    forall i :: 0 <= i < |axes| ==> axes[i].quant > 0 && Fits(values[i] as int, axes[i])
  }

  lemma ShiftsFitTail(axes: seq<Axis>, values: seq<int64>)
    requires ShiftsFitAll(axes, values) && axes != []
    ensures ShiftsFitAll(axes[1..], values[1..])
  {
    hide ShiftsFit;
  }

  /** The index that the code computes for some values, in 64-bit arithmetic that wraps around. */
  function ValueIndex(axes: seq<Axis>, values: seq<int64>, start: int): int
    requires |values| == |axes| && forall i :: 0 <= i < |axes| ==> axes[i].quant > 0
  {
    if axes == [] then start
    else ValueIndex(axes[1..], values[1..],
                    Wrap64(axes[0].buckets * start + WrappedBucket(values[0] as int, axes[0])))
  }

  /** The buckets of some values. */
  function ValueBuckets(axes: seq<Axis>, values: seq<int64>): Buckets
    requires |values| == |axes| && forall i :: 0 <= i < |axes| ==> axes[i].quant > 0
  {
    seq(|axes|, i requires 0 <= i < |axes| => WrappedBucket(values[i] as int, axes[i]))
  }

  lemma FitBucket(axes: seq<Axis>, values: seq<int64>, i: nat)
    requires ValidAxes(axes) && ShiftsFitAll(axes, values) && FitAll(axes, values) && i < |axes|
    ensures Within(axes[i], ValueBuckets(axes, values)[i], values[i] as int)
  {
    hide Within, Fits, ShiftsFit, WrappedBucket, Forgiven;
    BucketIff(values[i] as int, axes[i]);
  }

  lemma FitBuckets(axes: seq<Axis>, values: seq<int64>)
    requires ValidAxes(axes) && ShiftsFitAll(axes, values) && FitAll(axes, values)
    ensures InRange(axes, ValueBuckets(axes, values))
    ensures forall i :: 0 <= i < |axes| ==> Within(axes[i], ValueBuckets(axes, values)[i], values[i] as int)
  {
    hide Fits, ShiftsFit, WrappedBucket;
    forall i | 0 <= i < |axes|
      ensures Within(axes[i], ValueBuckets(axes, values)[i], values[i] as int)
    {
      FitBucket(axes, values, i);
    }
  }

  lemma BucketsTail(axes: seq<Axis>, values: seq<int64>)
    requires |values| == |axes| && axes != [] && forall i :: 0 <= i < |axes| ==> axes[i].quant > 0
    ensures ValueBuckets(axes, values)[1..] == ValueBuckets(axes[1..], values[1..])
  {
    hide WrappedBucket;
  }

  /** One more digit stays below what the remaining digits multiply it to. */
  lemma NextDigit(start: int, n: int, b: int, size: int)
    requires 0 <= start && 0 <= b < n && size > 0
    requires (start + 1) * (n * size) <= INT64_MAX
    ensures 0 <= n * start + b && (n * start + b + 1) * size <= INT64_MAX
    ensures n * start + b <= INT64_MAX
  {
    var next := n * start + b;
    Product(n, start);
    Associate(start + 1, n, size);
    Distribute(start, 1, n);
    if next + 1 < (start + 1) * n {
      Scaled(next + 1, (start + 1) * n, size);
    }
    if size > 1 {
      Scaled(1, size, next + 1);
    }
  }

  lemma {:induction false} FitIndexFrom(axes: seq<Axis>, values: seq<int64>, start: int)
    requires ValidAxes(axes) && |values| == |axes| && InRange(axes, ValueBuckets(axes, values))
    requires 0 <= start && (start + 1) * Size(axes) <= INT64_MAX
    ensures ValueIndex(axes, values, start) == Index(axes, ValueBuckets(axes, values), start)
  {
    hide WrappedBucket;
    if axes != [] {
      var bs := ValueBuckets(axes, values);
      BucketsTail(axes, values);
      SizePositive(axes[1..]);
      NextDigit(start, axes[0].buckets, bs[0], Size(axes[1..]));
      FitIndexFrom(axes[1..], values[1..], axes[0].buckets * start + bs[0]);
    }
  }

  /** Values that all fit are counted in the cell of the buckets that contain them. */
  lemma FitIndex(axes: seq<Axis>, values: seq<int64>)
    requires ValidAxes(axes) && ShiftsFitAll(axes, values) && FitAll(axes, values)
    requires Size(axes) <= INT64_MAX
    ensures 0 <= ValueIndex(axes, values, 0) < Size(axes)
    ensures var bs := Digits(axes, ValueIndex(axes, values, 0));
            |bs| == |axes| && forall i :: 0 <= i < |axes| ==> Within(axes[i], bs[i], values[i] as int)
  {
    hide Within, Fits, ShiftsFit, WrappedBucket, ValueIndex, ValueBuckets;
    FitBuckets(axes, values);
    FitIndexFrom(axes, values, 0);
    IndexInRange(axes, ValueBuckets(axes, values));
    DigitsOfIndex(axes, ValueBuckets(axes, values));
  }

  // ---------------------------------------------------------------- products that wrap around

  lemma WrapSmall()
    ensures Wrap64(1) == 1
  {
  }

  lemma WrapByMultiple(x: int, c: int)
    ensures Wrap64(x + c * TWO64) == Wrap64(x)
  {
    ModMultiple(x, c);
  }

  lemma {:induction false} ModMultiple(x: int, c: int)
    ensures (x + c * TWO64) % TWO64 == x % TWO64
    decreases if c < 0 then -c else c
  {
    if c > 0 {
      ModMultiple(x, c - 1);
      ModOnce(x + (c - 1) * TWO64);
    } else if c < 0 {
      ModMultiple(x, c + 1);
      ModOnce(x + c * TWO64);
    }
  }

  lemma ModOnce(x: int)
    ensures (x + TWO64) % TWO64 == x % TWO64
  {
  }

  lemma WrapIsMultipleAway(x: int) returns (c: int)
    ensures x == Wrap64(x) + c * TWO64
  {
    c := x / TWO64;
    assert x == c * TWO64 + x % TWO64;
    if x % TWO64 > INT64_MAX {
      c := c + 1;
    }
  }

  /** Wrapping every factor's product is wrapping the product. */
  lemma WrapProduct(x: int, b: int)
    ensures Wrap64(Wrap64(x) * b) == Wrap64(x * b)
  {
    hide Wrap64;
    var c := WrapIsMultipleAway(x);
    var w := Wrap64(x);
    assert x * b == w * b + (c * b) * TWO64 by {
      Distribute(w, c * TWO64, b);
      Associate(c, TWO64, b);
      Associate(c, b, TWO64);
      assert TWO64 * b == b * TWO64;
    }
    WrapByMultiple(w * b, c * b);
  }

  // ---------------------------------------------------------------- the histogram

  class PerfHistogram {
    const axes: seq<Axis>
    const rawData: array<int>
    ghost var incs: seq<Buckets>

    ghost predicate Valid()
      reads this
    {
      ValidAxes(axes) && rawData.Length == Size(axes) <= INT64_MAX
    }

    /** The cells hold exactly the increments since the last reset. */
    ghost predicate Counting()
      reads this, rawData
    {
      Valid() && AllInRange(axes, incs) && rawData[..] == Fill(axes, incs)
    }

    /**
     The counters are not initialized here; `Reset` does that.  The array is as long as it should be
     exactly if the number of counters fits into 64 bits.  Asking for a negative length throws.
     */
    constructor (config: seq<Axis>)
      requires ValidAxes(config) && Wrap64(Size(config)) >= 0
      ensures axes == config && fresh(rawData) && rawData.Length == Wrap64(Size(config))
      ensures Valid() <==> Size(config) <= INT64_MAX
    {
      axes := config;
      SizePositive(config);
      var size := RawSize(config);
      rawData := new int[size];
    }

    static method RawSize(axes: seq<Axis>) returns (ret: int)
      ensures ret == Wrap64(Size(axes))
    {
      hide Wrap64;
      WrapSmall();
      ret := 1;
      for k := 0 to |axes|
        invariant ret == Wrap64(Size(axes[..k]))
      {
        SizeSnoc(axes[..k], axes[k]);
        assert axes[..k + 1] == axes[..k] + [axes[k]];
        WrapProduct(Size(axes[..k]), axes[k].buckets);
        ret := Wrap64(ret * axes[k].buckets);
      }
      assert axes[..|axes|] == axes;
    }

    method Reset()
      requires Valid()
      modifies rawData, this`incs
      ensures Counting() && incs == []
    {
      var i := RawSize(axes);
      i := i - 1;
      while i >= 0
        invariant -1 <= i < rawData.Length
        invariant forall k :: i < k < rawData.Length ==> rawData[k] == 0
      {
        rawData[i] := 0;
        i := i - 1;
      }
      incs := [];
    }

    method IncBucket(bs: Buckets)
      requires Valid() && InRange(axes, bs)
      modifies rawData, this`incs
      ensures Valid() && incs == old(incs) + [bs]
      ensures 0 <= Index(axes, bs, 0) < rawData.Length
      ensures rawData[..] == Bump(old(rawData[..]), Index(axes, bs, 0))
      ensures old(Counting()) ==> Counting()
    {
      IndexInRange(axes, bs);
      var index := Index(axes, bs, 0);
      rawData[index] := Word(rawData[index] + 1);
      incs := incs + [bs];
      assert incs[..|incs| - 1] == old(incs);
    }

    /** The array index of some values. */
    static method IndexForValue(axes: seq<Axis>, values: seq<int64>, start: int) returns (index: int)
      requires ValidAxes(axes) && ShiftsFitAll(axes, values)
      ensures index == ValueIndex(axes, values, start)
      decreases |axes|
    {
      if axes == [] {
        return start;
      }
      ShiftsFitTail(axes, values);
      var b := GetBucketForAxis(values[0], axes[0]);
      index := IndexForValue(axes[1..], values[1..], Wrap64(axes[0].buckets * start + b as int));
    }

    /**
     Counts some values.  If the index lies outside the array the write escapes; otherwise some
     cell counts them, and it is the cell of the buckets that contain them if they all fit.
     */
    method Inc(values: seq<int64>) returns (escaped: bool, ghost bs: Buckets)
      requires Valid() && ShiftsFitAll(axes, values)
      modifies rawData, this`incs
      ensures Valid()
      ensures escaped <==> !(0 <= ValueIndex(axes, values, 0) < rawData.Length)
      ensures escaped ==> rawData[..] == old(rawData[..]) && incs == old(incs)
      ensures !escaped ==> InRange(axes, bs) && Index(axes, bs, 0) == ValueIndex(axes, values, 0)
      ensures !escaped ==> rawData[..] == Bump(old(rawData[..]), Index(axes, bs, 0)) && incs == old(incs) + [bs]
      ensures FitAll(axes, values) ==> !escaped && forall i :: 0 <= i < |axes| ==> Within(axes[i], bs[i], values[i] as int)
      ensures old(Counting()) ==> Counting()
    {
      hide Within, ShiftsFit, ValueIndex, Digits;
      var index := IndexForValue(axes, values, 0);
      if FitAll(axes, values) {
        FitIndex(axes, values);
      }
      escaped := !(0 <= index < rawData.Length);
      if escaped {
        bs := [];
      } else {
        IndexOfDigits(axes, index);
        bs := Digits(axes, index);
        rawData[index] := Word(rawData[index] + 1);
        incs := incs + [bs];
        assert incs[..|incs| - 1] == old(incs);
      }
    }

    method ReadBucket(bs: Buckets) returns (value: int)
      requires Valid() && InRange(axes, bs)
      ensures 0 <= Index(axes, bs, 0) < rawData.Length && value == rawData[Index(axes, bs, 0)]
      ensures Counting() ==> value == Word(multiset(incs)[bs])
    {
      IndexInRange(axes, bs);
      value := rawData[Index(axes, bs, 0)];
      if Counting() {
        FillCounts(axes, incs, bs);
      }
    }

    ghost predicate Faithful(vs: seq<Visit>)
      requires Valid()
      reads this, rawData
    {
      forall k :: 0 <= k < |vs| && vs[k].Value? ==>
        InRange(axes, vs[k].at) && 0 <= Index(axes, vs[k].at, 0) < rawData.Length &&
        vs[k].value == rawData[Index(axes, vs[k].at, 0)]
    }

    lemma Together(a: seq<Visit>, b: seq<Visit>, level: int)
      requires Valid() && Faithful(a) && Faithful(b)
      requires LevelAfter(a, level, |axes|) >= 0
      ensures Faithful(a + b)
      ensures Cells(axes, a + b) == Cells(axes, a) + Cells(axes, b)
      ensures LevelAfter(a + b, level, |axes|) == LevelAfter(b, LevelAfter(a, level, |axes|), |axes|)
    {
      CellsConcat(axes, a, b);
      LevelConcat(a, b, level, |axes|);
    }

    lemma Bracket(level: nat)
      requires Valid()
      ensures Cells(axes, [Enter(level)]) == [] == Cells(axes, [Leave(level)])
      ensures LevelAfter([Enter(level)], level, |axes|) == level + 1 && Faithful([Enter(level)])
      ensures LevelAfter([Leave(level)], level + 1, |axes|) == level && Faithful([Leave(level)])
    {
      assert [Enter(level)][1..] == [] == [Leave(level)][1..];
    }

    /** Visits the cells below `at`; the arithmetic is that of a 32-bit integer. */
    method VisitFrom(level: nat, startIndex: int32, at: Buckets) returns (out: seq<Visit>)
      requires Valid() && Size(axes) <= 0x7fff_ffff
      requires level <= |axes| && InRange(axes[..level], at) && startIndex as int == Index(axes[..level], at, 0)
      ensures 0 <= Cell(axes, level, startIndex as int) <= Cell(axes, level, startIndex as int + 1) <= rawData.Length
      ensures Cells(axes, out) ==
              Slice(rawData[..], Cell(axes, level, startIndex as int), Cell(axes, level, startIndex as int + 1))
      ensures LevelAfter(out, level, |axes|) == level
      ensures Faithful(out)
      decreases |axes| - level
    {
      hide Size, Index, Cell, InRange, ValidAxes, Faithful, LevelAfter, Cells, Slice;
      Stretch(axes, level, at);
      if level == |axes| {
        out := VisitCell(startIndex, at);
        return;
      }
      var ac := axes[level];
      Row(axes, level, at);
      Bracket(level);
      out := [Enter(level)];
      var index := startIndex * ac.buckets as int32;
      ghost var first := index as int;
      EmptySlice(rawData[..], Cell(axes, level + 1, first));
      var i := 0;
      while i < ac.buckets
        invariant 0 <= i <= ac.buckets
        invariant index as int == first + i
        invariant 0 <= Cell(axes, level + 1, first) <= Cell(axes, level + 1, first + i) <= rawData.Length
        invariant Cells(axes, out) == Slice(rawData[..], Cell(axes, level + 1, first), Cell(axes, level + 1, first + i))
        invariant LevelAfter(out, level, |axes|) == level + 1
        invariant Faithful(out)
      {
        Below(axes, level, at, i);
        var sub := VisitFrom(level + 1, index, at + [i]);
        Together(out, sub, level);
        SliceConcat(rawData[..], Cell(axes, level + 1, first), Cell(axes, level + 1, first + i),
                    Cell(axes, level + 1, first + i + 1));
        out := out + sub;
        i := i + 1;
        index := index + 1;
      }
      Together(out, [Leave(level)], level);
      out := out + [Leave(level)];
    }

    method VisitCell(startIndex: int32, at: Buckets) returns (out: seq<Visit>)
      requires Valid() && InRange(axes[..|axes|], at)
      requires startIndex as int == Index(axes[..|axes|], at, 0) && 0 <= startIndex as int < rawData.Length
      ensures Cell(axes, |axes|, startIndex as int) == startIndex as int
      ensures Cell(axes, |axes|, startIndex as int + 1) == startIndex as int + 1
      ensures Cells(axes, out) == Slice(rawData[..], startIndex as int, startIndex as int + 1)
      ensures LevelAfter(out, |axes|, |axes|) == |axes|
      ensures Faithful(out)
    {
      assert axes[..|axes|] == axes && axes[|axes|..] == [];
      out := [Value(at, rawData[startIndex])];
      assert out[1..] == [];
    }

    /** The whole traversal: every cell once, in order, at its own bucket vector, properly nested. */
    method VisitValues() returns (out: seq<Visit>)
      requires Valid() && Size(axes) <= 0x7fff_ffff
      ensures Cells(axes, out) == Slice(rawData[..], 0, rawData.Length)
      ensures LevelAfter(out, 0, |axes|) == 0
      ensures Faithful(out)
    {
      assert axes[..0] == [] && axes[0..] == axes;
      out := VisitFrom(0, 0, []);
    }
  }

  /** Four axes of 2^16 buckets have 2^64 counters, and the array for them is empty. */
  method SizeWraps(ac: Axis) returns (h: PerfHistogram)
    requires ValidAxis(ac) && ac.buckets == 0x1_0000
    ensures h.axes == [ac, ac, ac, ac] && h.rawData.Length == 0 && !h.Valid()
  {
    var axes := [ac, ac, ac, ac];
    assert Size(axes) == 0x1_0000_0000_0000_0000 by {
      assert axes[1..] == [ac, ac, ac] && axes[1..][1..] == [ac, ac] && axes[1..][1..][1..] == [ac];
      assert [ac][1..] == [];
      assert Size([ac]) == 0x1_0000;
      assert Size([ac, ac]) == 0x1_0000_0000;
      assert Size([ac, ac, ac]) == 0x1_0000_0000_0000;
    }
    h := new PerfHistogram(axes);
  }

  /** Counting the value of `OverflowEscapes` writes outside the array. */
  method IncEscapes() returns (h: PerfHistogram, escaped: bool)
    ensures h.axes == [Axis(Linear, -2, 1, 10)] && escaped
  {
    var ac := Axis(Linear, -2, 1, 10);
    h := new PerfHistogram([ac]);
    OverflowEscapes(ac);
    assert Size([ac]) == 10 by {
      assert [ac][1..] == [];
    }
    ghost var bs;
    escaped, bs := h.Inc([INT64_MAX as int64]);
    assert [ac][1..] == [] && [INT64_MAX as int64][1..] == [];
  }
}
