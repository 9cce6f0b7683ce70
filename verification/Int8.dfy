/** Symmetric INT8 quantisation over exact arithmetic: the vector loop rounds ties to even, the scalar
    loops away from zero. */
module Int8 {
  import opened Ordering

  function Abs(x: real): real { if x < 0.0 then -x else x }

  function MaxAbs(s: seq<real>): real {
    if s == [] then 0.0
    else
      var before, last := MaxAbs(s[..|s| - 1]), Abs(s[|s| - 1]);
      if last > before then last else before
  }

  lemma {:induction false} MaxAbsBounds(s: seq<real>)
    ensures MaxAbs(s) >= 0.0 && forall i | 0 <= i < |s| :: Abs(s[i]) <= MaxAbs(s)
    ensures MaxAbs(s) == 0.0 || exists i :: 0 <= i < |s| && Abs(s[i]) == MaxAbs(s)
  {
    if s != [] {
      var front := s[..|s| - 1];
      MaxAbsBounds(front);
      forall i | 0 <= i < |s| ensures Abs(s[i]) <= MaxAbs(s) {
        if i < |front| { assert Abs(front[i]) <= MaxAbs(front); }
      }
      if MaxAbs(s) != 0.0 {
        if MaxAbs(s) == Abs(s[|s| - 1]) {
        } else {
          var i :| 0 <= i < |front| && Abs(front[i]) == MaxAbs(front);
          assert Abs(s[i]) == MaxAbs(s);
        }
      }
    }
  }

  // The largest magnitude is the one number that is attained and bounds the rest.
  lemma MaxAbsIs(s: seq<real>, m: real, i: nat)
    requires i < |s| && Abs(s[i]) == m && forall j | 0 <= j < |s| :: Abs(s[j]) <= m
    ensures MaxAbs(s) == m
  {
    MaxAbsBounds(s);
    assert Abs(s[i]) <= MaxAbs(s);
  }

  /* ---- Rounding ---- */

  function HalfEven(x: real): int {
    var f := x.Floor;
    if x - f as real < 0.5 then f
    else if x - f as real > 0.5 then f + 1
    else if f % 2 == 0 then f else f + 1
  }

  function HalfAway(x: real): int {
    if x >= 0.0 then (x + 0.5).Floor else -((-x + 0.5).Floor)
  }

  function Round(x: real, vector: bool): int { if vector then HalfEven(x) else HalfAway(x) }

  lemma RoundIsNearest(x: real, vector: bool)
    ensures Abs(Round(x, vector) as real - x) <= 0.5
  {}

  // Rounding keeps integers and never crosses one.
  lemma RoundKeepsOrder(x: real, n: int, vector: bool)
    ensures n as real <= x ==> n <= Round(x, vector)
    ensures x <= n as real ==> Round(x, vector) <= n
  {}

  // The two loops can differ only on a tie, and then by one.
  lemma RoundingsDiffer(x: real)
    ensures HalfEven(x) != HalfAway(x) ==>
      x - x.Floor as real == 0.5 && Abs((HalfEven(x) - HalfAway(x)) as real) == 1.0
  {}

  // Halfway between two integers the vector loop takes the even one, the scalar loops the one further from
  // zero.
  lemma TiesGo(x: real, n: int)
    requires x == n as real + 0.5
    ensures HalfEven(x) == if n % 2 == 0 then n else n + 1
    ensures HalfAway(x) == if n >= 0 then n + 1 else n
  {
    assert x.Floor == n;
  }

  function Clamp(x: real): real { if x > 127.0 then 127.0 else if x < -127.0 then -127.0 else x }

  // static_cast<int8_t>: two's complement.
  function ToInt8(x: int): int { (x + 128) % 256 - 128 }

  function Scale(maxAbs: real): real { if maxAbs / 127.0 == 0.0 then 1.0 else maxAbs / 127.0 }

  function Code(x: real, scale: real, vector: bool): int
    requires scale > 0.0
  {
    CodeOfScaled(Quotient(x, scale), vector)
  }

  // The source multiplies by the inverse of the step.
  function Quotient(x: real, scale: real): real
    requires scale > 0.0
  {
    x * (1.0 / scale)
  }

  function CodeOfScaled(v: real, vector: bool): int { ToInt8(Round(Clamp(v), vector)) }

  lemma Cancel(a: real, b: real, scale: real)
    requires scale > 0.0 && a * scale == b * scale
    ensures a == b
  {
    MulLe(a, b, scale);
    MulLe(b, a, scale);
  }

  lemma Scaled(x: real, scale: real)
    requires scale > 0.0
    ensures Quotient(x, scale) * scale == x
  {
    assert (1.0 / scale) * scale == 1.0;
    assert x * (1.0 / scale) * scale == x * ((1.0 / scale) * scale);
  }

  lemma MulLe(a: real, b: real, d: real)
    requires d > 0.0
    ensures a <= b <==> a * d <= b * d
  {
    if a <= b { assert (b - a) * d >= 0.0; } else { assert (a - b) * d > 0.0; }
  }

  lemma RoundInRange(v: real, vector: bool)
    requires -127.0 <= v <= 127.0
    ensures -127 <= Round(v, vector) <= 127 && ToInt8(Round(v, vector)) == Round(v, vector)
  {
    RoundKeepsOrder(v, 127, vector);
    RoundKeepsOrder(v, -127, vector);
  }

  ghost predicate HalfStepAway(x: real, c: real, scale: real) { Abs(c * scale - x) <= scale / 2.0 }

  ghost predicate FullScale(x: real, c: real, scale: real) { c * scale == x && Abs(c) == 127.0 }

  // What a code is for: within half a step of the element, in range without the clamp or the cast having
  // done anything, and exact for zero and for the largest magnitude.
  ghost predicate Represents(x: real, code: int, maxAbs: real) {
    && -127 <= code <= 127
    && HalfStepAway(x, code as real, Scale(maxAbs))
    && (x == 0.0 ==> code == 0)
    && (maxAbs > 0.0 && Abs(x) == maxAbs ==> FullScale(x, code as real, Scale(maxAbs)))
  }

  lemma ClampIsIdle(x: real, maxAbs: real)
    requires Abs(x) <= maxAbs
    ensures Scale(maxAbs) > 0.0
    ensures var v := Quotient(x, Scale(maxAbs)); -127.0 <= v <= 127.0 && Clamp(v) == v && v * Scale(maxAbs) == x
  {
    var scale := Scale(maxAbs);
    Scaled(x, scale);
    WithinRange(x, Quotient(x, scale), maxAbs, scale);
  }

  lemma WithinRange(x: real, v: real, maxAbs: real, scale: real)
    requires scale > 0.0 && v * scale == x && Abs(x) <= maxAbs <= 127.0 * scale
    ensures -127.0 <= v <= 127.0
  {
    MulLe(v, 127.0, scale);
    MulLe(-v, 127.0, scale);
    assert (-v) * scale == -(v * scale);
  }

  // The code of an element whose quotient by the step is known and in range.
  lemma CodeOfQuotient(x: real, scale: real, v: real, vector: bool)
    requires scale > 0.0 && v * scale == x && -127.0 <= v <= 127.0
    ensures Code(x, scale, vector) == Round(v, vector) && -127 <= Round(v, vector) <= 127
  {
    RoundInRange(v, vector);
    Scaled(x, scale);
    Cancel(v, Quotient(x, scale), scale);
  }

  lemma MulAbs(a: real, b: real, d: real)
    requires d > 0.0 && Abs(a) <= b
    ensures Abs(a * d) <= b * d
  {
    MulLe(a, b, d);
    MulLe(-a, b, d);
    assert (-a) * d == -(a * d);
  }

  lemma HalfStep(v: real, c: real, scale: real, x: real)
    requires scale > 0.0 && v * scale == x && Abs(c - v) <= 0.5
    ensures HalfStepAway(x, c, scale)
  {
    var e := c - v;
    var p := e * scale;
    MulAbs(e, 0.5, scale);
    assert c == v + e && c * scale == (v + e) * scale == v * scale + e * scale;
    assert c * scale - x == p && Abs(p) <= 0.5 * scale == scale / 2.0;
  }

  lemma CodeRepresents(x: real, maxAbs: real, vector: bool)
    requires Abs(x) <= maxAbs
    ensures Scale(maxAbs) > 0.0 && Represents(x, Code(x, Scale(maxAbs), vector), maxAbs)
  {
    ClampIsIdle(x, maxAbs);
    var v := Quotient(x, Scale(maxAbs));
    CodeOfQuotient(x, Scale(maxAbs), v, vector);
    RoundRoundsTo(v, vector);
    RoundedRepresents(x, v, Round(v, vector), maxAbs);
  }

  // What both roundings do: the nearest integer, and an integer is left alone.
  ghost predicate RoundsTo(v: real, c: int) {
    && Abs(c as real - v) <= 0.5
    && (v == 0.0 ==> c == 0)
    && (Abs(v) == 127.0 ==> c as real == v)
  }

  lemma RoundRoundsTo(v: real, vector: bool)
    ensures RoundsTo(v, Round(v, vector))
  {
    RoundIsNearest(v, vector);
    RoundKeepsOrder(v, 0, vector);
    RoundKeepsOrder(v, 127, vector);
    RoundKeepsOrder(v, -127, vector);
  }

  lemma RoundedRepresents(x: real, v: real, c: int, maxAbs: real)
    requires Abs(x) <= maxAbs && Scale(maxAbs) > 0.0 && v * Scale(maxAbs) == x
    requires RoundsTo(v, c) && -127 <= c <= 127
    ensures Represents(x, c, maxAbs)
  {
    var scale := Scale(maxAbs);
    HalfStep(v, c as real, scale, x);
    if x == 0.0 { ZeroFactor(v, scale); }
    if maxAbs > 0.0 && Abs(x) == maxAbs { Extreme(x, v, scale, maxAbs); }
  }

  lemma ZeroFactor(v: real, scale: real)
    requires scale > 0.0 && v * scale == 0.0
    ensures v == 0.0
  {
    MulLe(v, 0.0, scale);
    MulLe(0.0, v, scale);
  }

  lemma Extreme(x: real, v: real, scale: real, maxAbs: real)
    requires maxAbs > 0.0 && Abs(x) == maxAbs && scale == maxAbs / 127.0 && v * scale == x
    ensures v == if x > 0.0 then 127.0 else -127.0
  {
    var e := if x > 0.0 then 127.0 else -127.0;
    assert e * scale == x;
    MulLe(v, e, scale);
    MulLe(e, v, scale);
  }

  /* ---- The loops ---- */

  method FindMaxAbs(src: seq<real>) returns (maxAbs: real)
    ensures maxAbs == MaxAbs(src)
  {
    maxAbs := 0.0;
    for i := 0 to |src|
      invariant maxAbs == MaxAbs(src[..i])
    {
      assert src[..i + 1][..i] == src[..i];
      var a := Abs(src[i]);
      if a > maxAbs { maxAbs := a; }
    }
    TakeEnds(src);
  }

  // The elements the vector loop takes.
  function VectorEnd(n: nat, avx2: bool): nat { if avx2 then n / 8 * 8 else 0 }

  ghost predicate IsScaled(x: real, inverse: real, v: real) { v == x * inverse }

  ghost predicate Coded(scaled: seq<real>, codes: seq<int>, end: nat, n: nat) {
    n <= |scaled| <= |codes| && forall i | 0 <= i < n :: codes[i] == CodeOfScaled(scaled[i], i < end)
  }

  // The code of every element, each by the rounding of its loop.
  ghost predicate Quantised(src: seq<real>, codes: seq<int>, scale: real, avx2: bool) {
    && |src| <= |codes| && scale > 0.0
    && forall i | 0 <= i < |src| :: codes[i] == Code(src[i], scale, i < VectorEnd(|src|, avx2))
  }

  lemma CodedIsQuantised(src: seq<real>, scaled: seq<real>, codes: seq<int>, scale: real, avx2: bool)
    requires scale > 0.0 && |scaled| == |src|
    requires forall i {:trigger IsScaled(src[i], 1.0 / scale, scaled[i])} | 0 <= i < |src| ::
      IsScaled(src[i], 1.0 / scale, scaled[i])
    requires Coded(scaled, codes, VectorEnd(|src|, avx2), |src|)
    ensures Quantised(src, codes, scale, avx2)
  {
    forall i | 0 <= i < |src| ensures codes[i] == Code(src[i], scale, i < VectorEnd(|src|, avx2)) {
      assert IsScaled(src[i], 1.0 / scale, scaled[i]);
      ScaledCode(src[i], scale, scaled[i], i < VectorEnd(|src|, avx2));
    }
  }

  lemma ScaledCode(x: real, scale: real, v: real, vector: bool)
    requires scale > 0.0 && IsScaled(x, 1.0 / scale, v)
    ensures CodeOfScaled(v, vector) == Code(x, scale, vector)
  {}

  lemma QuantisedRepresents(src: seq<real>, codes: seq<int>, avx2: bool)
    requires Scale(MaxAbs(src)) > 0.0 && Quantised(src, codes, Scale(MaxAbs(src)), avx2)
    ensures forall i | 0 <= i < |src| :: Represents(src[i], codes[i], MaxAbs(src))
  {
    MaxAbsBounds(src);
    forall i | 0 <= i < |src| ensures Represents(src[i], codes[i], MaxAbs(src)) {
      CodeRepresents(src[i], MaxAbs(src), i < VectorEnd(|src|, avx2));
    }
  }

  // The element lies halfway between the codes n and n + 1.
  ghost predicate IsTie(x: real, n: int, scale: real) { x == (n as real + 0.5) * scale }

  // With AVX2 the last elements, that do not fill eight, are coded as without it.
  ghost predicate TiesAgree(src: seq<real>, codes: seq<int>, scale: real, avx2: bool) {
    |src| <= |codes| && forall i: nat, n: int | i < |src| && IsTie(src[i], n, scale) ::
      codes[i] == if avx2 && i / 8 < |src| / 8 then (if n % 2 == 0 then n else n + 1)
                  else if n >= 0 then n + 1 else n
  }

  lemma QuantisedTies(src: seq<real>, codes: seq<int>, maxAbs: real, avx2: bool)
    requires Scale(maxAbs) > 0.0 && Quantised(src, codes, Scale(maxAbs), avx2)
    requires forall i | 0 <= i < |src| :: Abs(src[i]) <= maxAbs
    ensures TiesAgree(src, codes, Scale(maxAbs), avx2)
  {
    forall i: nat, n: int | i < |src| && IsTie(src[i], n, Scale(maxAbs))
      ensures codes[i] == if avx2 && i / 8 < |src| / 8 then (if n % 2 == 0 then n else n + 1)
                          else if n >= 0 then n + 1 else n
    {
      TieCode(src[i], n, maxAbs, i < VectorEnd(|src|, avx2));
    }
  }

  lemma TieCode(x: real, n: int, maxAbs: real, vector: bool)
    requires Scale(maxAbs) > 0.0 && Abs(x) <= maxAbs && IsTie(x, n, Scale(maxAbs))
    ensures Code(x, Scale(maxAbs), vector) ==
      if vector then (if n % 2 == 0 then n else n + 1) else if n >= 0 then n + 1 else n
  {
    var v := n as real + 0.5;
    ClampIsIdle(x, maxAbs);
    Cancel(v, Quotient(x, Scale(maxAbs)), Scale(maxAbs));
    CodeOfQuotient(x, Scale(maxAbs), v, vector);
    TiesGo(v, n);
  }

  /** Quantize, INT8. With AVX2 the elements go eight at a time, the rest one by one. */
  method Quantize(src: seq<real>, dst: array<int>, avx2: bool) returns (scale: real)
    requires dst.Length >= |src|
    modifies dst
    ensures scale == Scale(MaxAbs(src)) && Quantised(src, dst[..], scale, avx2)
    ensures forall i | 0 <= i < |src| :: Represents(src[i], dst[..][i], MaxAbs(src))
    ensures scale == (if MaxAbs(src) == 0.0 then 1.0 else MaxAbs(src) / 127.0)
    ensures TiesAgree(src, dst[..], scale, avx2)
    ensures dst[|src|..] == old(dst[|src|..])
  {
    var maxAbs := FindMaxAbs(src);
    MaxAbsBounds(src);
    scale := maxAbs / 127.0;
    if scale == 0.0 { scale := 1.0; }
    ghost var scaled := CodeLoops(src, 1.0 / scale, dst, avx2);
    CodedIsQuantised(src, scaled, dst[..], scale, avx2);
    QuantisedRepresents(src, dst[..], avx2);
    QuantisedTies(src, dst[..], MaxAbs(src), avx2);
  }

  lemma CodedNext(scaled: seq<real>, codes: seq<int>, end: nat, i: nat, code: int)
    requires Coded(scaled, codes, end, i) && i < |scaled| && code == CodeOfScaled(scaled[i], i < end)
    ensures Coded(scaled, codes[i := code], end, i + 1)
  {}

  // One turn of the vector loop.
  method CodeEight(src: seq<real>, inverse: real, ghost scaled: seq<real>, dst: array<int>, ghost end: nat, i: nat)
    requires i + 8 <= end <= |src| == |scaled| <= dst.Length && Coded(scaled, dst[..], end, i)
    requires forall k {:trigger IsScaled(src[k], inverse, scaled[k])} | 0 <= k < |src| ::
      IsScaled(src[k], inverse, scaled[k])
    modifies dst
    ensures Coded(scaled, dst[..], end, i + 8) && dst[|src|..] == old(dst[|src|..])
  {
    for j := 0 to 8
      invariant Coded(scaled, dst[..], end, i + j) && dst[|src|..] == old(dst[|src|..])
    {
      assert IsScaled(src[i + j], inverse, scaled[i + j]);
      dst[i + j] := ToInt8(HalfEven(Clamp(src[i + j] * inverse)));
    }
  }

  method CodeLoops(src: seq<real>, inverse: real, dst: array<int>, avx2: bool) returns (ghost scaled: seq<real>)
    requires dst.Length >= |src|
    modifies dst
    ensures |scaled| == |src|
    ensures forall i {:trigger IsScaled(src[i], inverse, scaled[i])} | 0 <= i < |src| ::
      IsScaled(src[i], inverse, scaled[i])
    ensures Coded(scaled, dst[..], VectorEnd(|src|, avx2), |src|) && dst[|src|..] == old(dst[|src|..])
  {
    ghost var end := VectorEnd(|src|, avx2);
    scaled := ScaledBy(src, inverse);
    var i := 0;
    if avx2 {
      while i + 8 <= |src|
        invariant 0 <= i <= end && i % 8 == 0 && Coded(scaled, dst[..], end, i)
        invariant dst[|src|..] == old(dst[|src|..])
      {
        CodeEight(src, inverse, scaled, dst, end, i);
        i := i + 8;
      }
    }
    while i < |src|
      invariant end <= i <= |src| && Coded(scaled, dst[..], end, i)
      invariant dst[|src|..] == old(dst[|src|..])
    {
      assert IsScaled(src[i], inverse, scaled[i]);
      var code := ToInt8(HalfAway(Clamp(src[i] * inverse)));
      CodedNext(scaled, dst[..], end, i, code);
      dst[i] := code;
      i := i + 1;
    }
  }

  lemma ScaledBy(src: seq<real>, inverse: real) returns (scaled: seq<real>)
    ensures |scaled| == |src|
    ensures forall i {:trigger IsScaled(src[i], inverse, scaled[i])} | 0 <= i < |src| ::
      IsScaled(src[i], inverse, scaled[i])
  {
    scaled := seq(|src|, i requires 0 <= i < |src| => src[i] * inverse);
  }

  /** Dequantize, INT8; without a per-tensor scale the codes are taken as they are. */
  method Dequantize(codes: seq<int>, perTensor: bool, tensorScale: real, dst: array<real>, avx2: bool)
    requires dst.Length >= |codes|
    modifies dst
    ensures dst[..|codes|] == Restored(codes, if perTensor then tensorScale else 1.0)
    ensures forall i | 0 <= i < |codes| ::
      dst[i] == if perTensor then codes[i] as real * tensorScale else codes[i] as real
    ensures forall i | |codes| <= i < dst.Length :: dst[i] == old(dst[i])
  {
    var scale := if perTensor then tensorScale else 1.0;
    ghost var restored := Restored(codes, scale);
    var i := 0;
    if avx2 {
      while i + 8 <= |codes|
        invariant 0 <= i <= |codes| && forall k | 0 <= k < i :: dst[k] == restored[k]
        invariant forall k | |codes| <= k < dst.Length :: dst[k] == old(dst[k])
      {
        for j := 0 to 8
          invariant forall k | 0 <= k < i + j :: dst[k] == restored[k]
          invariant forall k | |codes| <= k < dst.Length :: dst[k] == old(dst[k])
        {
          dst[i + j] := codes[i + j] as real * scale;
        }
        i := i + 8;
      }
    }
    while i < |codes|
      invariant 0 <= i <= |codes| && forall k | 0 <= k < i :: dst[k] == restored[k]
      invariant forall k | |codes| <= k < dst.Length :: dst[k] == old(dst[k])
    {
      dst[i] := codes[i] as real * scale;
      i := i + 1;
    }
    assert dst[..|codes|] == restored;
  }

  function Restored(codes: seq<int>, scale: real): seq<real> {
    seq(|codes|, i requires 0 <= i < |codes| => codes[i] as real * scale)
  }

  /* ---- Round trips ---- */

  lemma SameMaxAbs(src: seq<real>, y: seq<real>)
    requires |y| == |src|
    requires forall i | 0 <= i < |src| ::
      Abs(y[i]) <= MaxAbs(src) && (Abs(src[i]) == MaxAbs(src) ==> Abs(y[i]) == MaxAbs(src))
    ensures MaxAbs(y) == MaxAbs(src)
  {
    MaxAbsBounds(src);
    MaxAbsBounds(y);
    if MaxAbs(src) != 0.0 {
      var i :| 0 <= i < |src| && Abs(src[i]) == MaxAbs(src);
      MaxAbsIs(y, MaxAbs(src), i);
    }
  }

  // A code times the step stays within the largest magnitude, and reaches it where the element did.
  lemma RestoredElement(x: real, code: int, maxAbs: real, y: real)
    requires Represents(x, code, maxAbs) && Abs(x) <= maxAbs && y == code as real * Scale(maxAbs)
    ensures Abs(y) <= maxAbs && (Abs(x) == maxAbs ==> Abs(y) == maxAbs)
  {
    if maxAbs > 0.0 {
      RestoredWithin(code as real, Scale(maxAbs), maxAbs, y);
      if Abs(x) == maxAbs { assert FullScale(x, code as real, Scale(maxAbs)); }
    } else {
      assert code == 0;
    }
  }

  lemma RestoredWithin(c: real, scale: real, maxAbs: real, y: real)
    requires scale > 0.0 && 127.0 * scale == maxAbs && -127.0 <= c <= 127.0 && y == c * scale
    ensures Abs(y) <= maxAbs
  {
    MulAbs(c, 127.0, scale);
  }

  lemma RestoredElements(src: seq<real>, codes: seq<int>, y: seq<real>, m: real)
    requires |codes| == |src| == |y|
    requires forall i {:trigger Represents(src[i], codes[i], m)} | 0 <= i < |src| :: Represents(src[i], codes[i], m)
    requires forall i | 0 <= i < |src| :: Abs(src[i]) <= m
    requires y == Restored(codes, Scale(m))
    ensures forall i | 0 <= i < |src| :: Abs(y[i]) <= m && (Abs(src[i]) == m ==> Abs(y[i]) == m)
  {
    forall i | 0 <= i < |src| ensures Abs(y[i]) <= m && (Abs(src[i]) == m ==> Abs(y[i]) == m) {
      assert Represents(src[i], codes[i], m);
      RestoredElement(src[i], codes[i], m, y[i]);
    }
  }

  // All elements of a tensor with largest magnitude m are represented by their codes.
  ghost predicate AllRepresented(src: seq<real>, codes: seq<int>, m: real) {
    && m == MaxAbs(src) && |codes| == |src|
    && forall i {:trigger Represents(src[i], codes[i], m)} | 0 <= i < |src| :: Represents(src[i], codes[i], m)
  }

  // The restored tensor has the same largest magnitude, hence the same scale.
  lemma RestoredMaxAbs(src: seq<real>, codes: seq<int>, y: seq<real>, m: real)
    requires AllRepresented(src, codes, m) && y == Restored(codes, Scale(m))
    ensures MaxAbs(y) == m && Scale(m) > 0.0 && forall i | 0 <= i < |y| :: Abs(y[i]) <= m
  {
    MaxAbsBounds(src);
    RestoredElements(src, codes, y, m);
    SameMaxAbs(src, y);
  }

  // Code times step is a multiple of the step, which rounding leaves alone.
  lemma CodeOfMultiple(y: real, code: int, maxAbs: real, vector: bool)
    requires -127 <= code <= 127 && Scale(maxAbs) > 0.0 && y == code as real * Scale(maxAbs)
    ensures Code(y, Scale(maxAbs), vector) == code
  {
    CodeOfQuotient(y, Scale(maxAbs), code as real, vector);
    RoundKeepsOrder(code as real, code, vector);
  }

  lemma RestoredAt(codes: seq<int>, scale: real, i: nat, y: real)
    requires i < |codes| && y == Restored(codes, scale)[i]
    ensures y == codes[i] as real * scale
  {}

  lemma RestoredCode(codes: seq<int>, maxAbs: real, i: nat, y: real, vector: bool)
    requires i < |codes| && -127 <= codes[i] <= 127 && Scale(maxAbs) > 0.0 && y == Restored(codes, Scale(maxAbs))[i]
    ensures Code(y, Scale(maxAbs), vector) == codes[i]
  {
    RestoredAt(codes, Scale(maxAbs), i, y);
    CodeOfMultiple(y, codes[i], maxAbs, vector);
  }

  /** Quantising what was restored gives back the codes and the scale, whichever loops did the rounding. */
  lemma RequantisingIsStable(src: seq<real>, codes: seq<int>, y: seq<real>, m: real, i: nat, vector: bool)
    requires AllRepresented(src, codes, m) && y == Restored(codes, Scale(m)) && i < |src|
    ensures MaxAbs(y) == m && Scale(m) > 0.0 && Code(y[i], Scale(m), vector) == codes[i]
  {
    RestoredMaxAbs(src, codes, y, m);
    assert Represents(src[i], codes[i], m);
    RestoredCode(codes, m, i, y[i], vector);
  }
}
