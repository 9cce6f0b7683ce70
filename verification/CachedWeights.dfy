/** The weights an expert runs with: built on the spot, or picked from a cache entry by either forward
    path. Says exactly when the two are the same, and when the cache entry of an expert takes more memory
    than it is charged for. */
module CachedWeights {
  import opened Arithmetic

  datatype Option<T> = None | Some(value: T)

  // What a tensor points at: nothing, floats, or rows still in their storage format.
  datatype Data<R> = Null | Floats(values: seq<real>) | Rows(rows: seq<R>)

  datatype Tensor<R> = Empty | Matrix(data: Data<R>, rows: int, cols: int)

  datatype Format<!R> = F32 | Other(toFloat: Option<R -> seq<real>>)

  // A scale sidecar: whether it holds F32 data at all, its shape, and its values.
  datatype Sidecar = Sidecar(valid: bool, rows: int, cols: int, at: (int, int) -> real)

  /** One weight matrix: its storage and format, its packed INT4 binding if that is valid (with the floats it
      unpacks to, if it does), and its scale sidecar. */
  datatype Weight<!R> = Weight(
    storage: Data<R>,
    format: Format<R>,
    int4: Option<Option<seq<real>>>,
    scale: Option<Sidecar>,
    rows: int,
    cols: int)

  predicate Missing<R>(w: Weight<R>) { w.storage.Null? || w.rows <= 0 || w.cols <= 0 }

  // Storage has the weight's shape and format, and unpacking INT4 checks the dimensions.
  ghost predicate WellFormed<R(!new)>(w: Weight<R>) {
    && (w.int4.Some? && w.int4.value.Some? ==> w.rows > 0 && w.cols > 0 && |w.int4.value.value| == w.rows * w.cols)
    && (w.storage.Floats? ==> w.format.F32?) && (w.storage.Rows? ==> w.format.Other?)
    && (!Missing(w) && w.format.F32? ==> |w.storage.values| == w.rows * w.cols)
    && (!Missing(w) && w.format.Other? ==> |w.storage.rows| == w.rows)
    && (w.cols > 0 && w.format.Other? && w.format.toFloat.Some? ==> forall row ::
      |w.format.toFloat.value(row)| == w.cols)
  }

  /* ---- Scale sidecars ---- */

  // The sidecar covers the matrix row by row and column by column, or stretches over them.
  predicate Covers(s: Sidecar, rows: int, cols: int) {
    s.valid && s.rows > 0 && s.cols > 0 && (s.rows == rows || s.rows == 1) && (s.cols == cols || s.cols == 1)
  }

  predicate Applies(scale: Option<Sidecar>, rows: int, cols: int) { scale.None? || Covers(scale.value, rows, cols) }

  function ScaleAt(s: Sidecar, rows: int, cols: int, r: int, c: int): real {
    s.at(if s.rows == rows then r else 0, if s.cols == cols then c else 0)
  }

  function ScaledBy(s: Sidecar, rows: nat, cols: nat, values: seq<real>): seq<real>
    requires cols > 0
  {
    seq(|values|, p requires 0 <= p < |values| => values[p] * ScaleAt(s, rows, cols, p / cols, p % cols))
  }

  // A sidecar that does not apply changes nothing.
  function Scaled(scale: Option<Sidecar>, rows: int, cols: int, values: seq<real>): seq<real> {
    if scale.Some? && rows > 0 && cols > 0 && Covers(scale.value, rows, cols)
    then ScaledBy(scale.value, rows, cols, values)
    else values
  }

  lemma CellIndex(rows: nat, cols: nat, r: nat, c: nat)
    requires r < rows && c < cols
    ensures r * cols + c < rows * cols && (r * cols + c) / cols == r && (r * cols + c) % cols == c
  {
    assert r * cols + c == cols * r + c;
    DivUnique(r * cols + c, cols, r, c);
    PairBelow(r, c, cols, rows);
  }

  // The factor of cell (r, c): a full sidecar has one per cell, a single row or column is stretched.
  ghost predicate IsFactor(scale: Option<Sidecar>, rows: int, cols: int, r: nat, c: nat, factor: real) {
    && (scale.None? ==> factor == 1.0)
    && (scale.Some? ==>
          var s := scale.value;
          && (s.rows == rows && s.cols == cols ==> factor == s.at(r, c))
          && (s.rows == 1 && s.cols == cols ==> factor == s.at(0, c))
          && (s.rows == rows && s.cols == 1 ==> factor == s.at(r, 0))
          && (s.rows == 1 && s.cols == 1 ==> factor == s.at(0, 0)))
  }

  // A sidecar takes part only if it is F32 data and, in each direction, as long as the matrix or one long.
  predicate HasFactors(scale: Option<Sidecar>, rows: int, cols: int) {
    scale.None? ||
    (scale.value.valid && (scale.value.rows == rows > 0 || scale.value.rows == 1) &&
     (scale.value.cols == cols > 0 || scale.value.cols == 1))
  }

  ghost predicate CellScaled(scale: Option<Sidecar>, rows: nat, cols: nat, was: seq<real>, values: seq<real>, r: nat,
                             c: nat) {
    var p := r * cols + c;
    p < |was| == |values| && exists factor :: IsFactor(scale, rows, cols, r, c, factor) && values[p] == was[p] * factor
  }

  ghost predicate AllScaled(scale: Option<Sidecar>, rows: nat, cols: nat, was: seq<real>, values: seq<real>) {
    forall r: nat, c: nat | r < rows && c < cols :: CellScaled(scale, rows, cols, was, values, r, c)
  }

  lemma ScaledCells(scale: Option<Sidecar>, rows: nat, cols: nat, was: seq<real>)
    requires rows > 0 && cols > 0 && |was| == rows * cols
    ensures Applies(scale, rows, cols) <==> HasFactors(scale, rows, cols)
    ensures HasFactors(scale, rows, cols) ==> AllScaled(scale, rows, cols, was, Scaled(scale, rows, cols, was))
    ensures !HasFactors(scale, rows, cols) ==> Scaled(scale, rows, cols, was) == was
  {
    if HasFactors(scale, rows, cols) {
      var values := Scaled(scale, rows, cols, was);
      forall r: nat, c: nat | r < rows && c < cols ensures CellScaled(scale, rows, cols, was, values, r, c) {
        ScaledCell(scale, rows, cols, was, values, r, c, r * cols + c);
      }
    }
  }

  lemma ScaledCell(scale: Option<Sidecar>, rows: nat, cols: nat, was: seq<real>, values: seq<real>, r: nat, c: nat,
                   p: nat)
    requires r < rows && c < cols && |was| == rows * cols && HasFactors(scale, rows, cols) && p == r * cols + c
    requires values == Scaled(scale, rows, cols, was)
    ensures CellScaled(scale, rows, cols, was, values, r, c)
  {
    CellIndex(rows, cols, r, c);
    var factor := if scale.None? then 1.0 else ScaleAt(scale.value, rows, cols, r, c);
    assert IsFactor(scale, rows, cols, r, c, factor) && values[p] == was[p] * factor;
  }

  // values is `target` up to p and as it was from there on.
  ghost predicate ScaledUpTo(values: seq<real>, was: seq<real>, target: seq<real>, p: nat) {
    |values| == |was| == |target| && p <= |values| &&
    (forall q | 0 <= q < p :: values[q] == target[q]) && (forall q | p <= q < |values| :: values[q] == was[q])
  }

  ghost predicate CellTarget(s: Sidecar, rows: nat, cols: nat, was: seq<real>, target: seq<real>, r: nat, base: nat,
                             c: nat) {
    base + c < |was| == |target| && target[base + c] == was[base + c] * ScaleAt(s, rows, cols, r, c)
  }

  ghost predicate RowTarget(s: Sidecar, rows: nat, cols: nat, was: seq<real>, target: seq<real>, r: nat, base: nat) {
    forall c: nat | c < cols :: CellTarget(s, rows, cols, was, target, r, base, c)
  }

  lemma CellTargetHolds(s: Sidecar, rows: nat, cols: nat, was: seq<real>, target: seq<real>, r: nat, base: nat, c: nat)
    requires r < rows && c < cols && |was| == rows * cols && target == ScaledBy(s, rows, cols, was) && base == r * cols
    ensures CellTarget(s, rows, cols, was, target, r, base, c)
  {
    CellIndex(rows, cols, r, c);
    var p := base + c;
    assert target[p] == was[p] * ScaleAt(s, rows, cols, p / cols, p % cols);
  }

  lemma RowTargetHolds(s: Sidecar, rows: nat, cols: nat, was: seq<real>, target: seq<real>, r: nat, base: nat)
    requires r < rows && cols > 0 && |was| == rows * cols && target == ScaledBy(s, rows, cols, was) && base == r * cols
    ensures RowTarget(s, rows, cols, was, target, r, base) && base + cols <= |was|
  {
    forall c: nat | c < cols ensures CellTarget(s, rows, cols, was, target, r, base, c) {
      CellTargetHolds(s, rows, cols, was, target, r, base, c);
    }
    CellIndex(rows, cols, r, cols - 1);
  }

  // One row of the matrix, from index `base` on.
  method ScaleRow(s: Sidecar, rows: nat, cols: nat, r: nat, sr: int, values: array<real>, base: nat,
                  ghost was: seq<real>, ghost target: seq<real>) returns (ok: bool)
    requires cols > 0 && base + cols <= values.Length && sr == (if s.rows == rows then r else 0)
    requires ScaledUpTo(values[..], was, target, base) && RowTarget(s, rows, cols, was, target, r, base)
    modifies values
    ensures ok <==> s.cols == cols || s.cols == 1
    ensures ScaledUpTo(values[..], was, target, if ok then base + cols else base)
  {
    for c := 0 to cols
      invariant ScaledUpTo(values[..], was, target, base + c) && (c > 0 ==> s.cols == cols || s.cols == 1)
    {
      var sc := if s.cols == cols then c else if s.cols == 1 then 0 else -1;
      if sc < 0 { return false; }
      var factor := s.at(sr, sc);
      assert factor == ScaleAt(s, rows, cols, r, c);
      assert CellTarget(s, rows, cols, was, target, r, base, c) && values[base + c] == was[base + c];
      values[base + c] := values[base + c] * factor;
    }
    ok := true;
  }

  /** ApplyScaleSidecarInPlace. The shape is checked cell by cell, but a sidecar of the wrong shape fails at
      the first cell, before anything has been multiplied. */
  method ApplyScale(scale: Option<Sidecar>, rows: nat, cols: nat, values: array<real>) returns (ok: bool)
    requires rows > 0 && cols > 0 && values.Length == rows * cols
    modifies values
    ensures ok <==> Applies(scale, rows, cols)
    ensures values[..] == Scaled(scale, rows, cols, old(values[..]))
    ensures ok <==> HasFactors(scale, rows, cols)
    ensures if ok then AllScaled(scale, rows, cols, old(values[..]), values[..]) else values[..] == old(values[..])
  {
    ScaledCells(scale, rows, cols, values[..]);
    if scale.None? { return true; }
    var s := scale.value;
    if !s.valid || s.cols <= 0 || s.rows <= 0 { return false; }
    ghost var was := values[..];
    ghost var target := ScaledBy(s, rows, cols, was);
    var base := 0;
    for r := 0 to rows
      invariant base == r * cols <= values.Length && ScaledUpTo(values[..], was, target, base)
      invariant r > 0 ==> Covers(s, rows, cols)
    {
      var sr := if s.rows == rows then r else if s.rows == 1 then 0 else -1;
      if sr < 0 { NothingScaled(values[..], was, target, r, base, cols); return false; }
      RowTargetHolds(s, rows, cols, was, target, r, base);
      var done := ScaleRow(s, rows, cols, r, sr, values, base, was, target);
      if !done { NothingScaled(values[..], was, target, r, base, cols); return false; }
      base := base + cols;
      assert (r + 1) * cols == r * cols + cols;
    }
    ok := true;
  }

  lemma NothingScaled(values: seq<real>, was: seq<real>, target: seq<real>, r: nat, base: nat, cols: nat)
    requires ScaledUpTo(values, was, target, base) && base == r * cols
    ensures r == 0 ==> values == was
  {}

  /* ---- Conversion ---- */

  // Row by row, each through the format's conversion.
  function Converted<R>(rows: seq<R>, toFloat: R -> seq<real>): seq<real> {
    if rows == [] then [] else Converted(rows[..|rows| - 1], toFloat) + toFloat(rows[|rows| - 1])
  }

  lemma {:induction false} ConvertedLength<R>(rows: seq<R>, cols: nat, toFloat: R -> seq<real>)
    requires forall r | 0 <= r < |rows| :: |toFloat(rows[r])| == cols
    ensures |Converted(rows, toFloat)| == |rows| * cols
  {
    if rows != [] {
      var n := |rows| - 1;
      ConvertedLength(rows[..n], cols, toFloat);
      assert (n + 1) * cols == n * cols + cols;
    }
  }

  // Row r starts at r * cols.
  ghost predicate LaidOut<R>(rows: seq<R>, cols: nat, toFloat: R -> seq<real>, out: seq<real>, r: nat, c: nat) {
    var p := r * cols + c;
    p < |out| && r < |rows| && c < |toFloat(rows[r])| && out[p] == toFloat(rows[r])[c]
  }

  ghost predicate RowsLaidOut<R>(rows: seq<R>, cols: nat, toFloat: R -> seq<real>, out: seq<real>) {
    |out| == |rows| * cols && forall r: nat, c: nat | r < |rows| && c < cols :: LaidOut(rows, cols, toFloat, out, r, c)
  }

  lemma {:induction false} ConvertedCell<R>(rows: seq<R>, cols: nat, toFloat: R -> seq<real>, r: nat, c: nat)
    requires forall r | 0 <= r < |rows| :: |toFloat(rows[r])| == cols
    requires r < |rows| && c < cols
    ensures LaidOut(rows, cols, toFloat, Converted(rows, toFloat), r, c)
  {
    var n := |rows| - 1;
    var front := rows[..n];
    ConvertedLength(front, cols, toFloat);
    if r < n {
      ConvertedCell(front, cols, toFloat, r, c);
    } else {
      assert Converted(rows, toFloat)[n * cols + c] == toFloat(rows[n])[c];
    }
  }

  lemma ConvertedRows<R>(rows: seq<R>, cols: nat, toFloat: R -> seq<real>)
    requires forall r | 0 <= r < |rows| :: |toFloat(rows[r])| == cols
    ensures RowsLaidOut(rows, cols, toFloat, Converted(rows, toFloat))
  {
    ConvertedLength(rows, cols, toFloat);
    forall r: nat, c: nat | r < |rows| && c < cols
      ensures LaidOut(rows, cols, toFloat, Converted(rows, toFloat), r, c)
    {
      ConvertedCell(rows, cols, toFloat, r, c);
    }
  }

  method ConvertRows<R>(rows: seq<R>, cols: nat, toFloat: R -> seq<real>) returns (out: seq<real>)
    requires forall r | 0 <= r < |rows| :: |toFloat(rows[r])| == cols
    ensures out == Converted(rows, toFloat) && |out| == |rows| * cols
    ensures RowsLaidOut(rows, cols, toFloat, out)
  {
    ConvertedRows(rows, cols, toFloat);
    out := [];
    for r := 0 to |rows|
      invariant out == Converted(rows[..r], toFloat) && |out| == r * cols
    {
      assert rows[..r + 1][..r] == rows[..r];
      assert (r + 1) * cols == r * cols + cols;
      out := out + toFloat(rows[r]);
    }
    assert rows[..|rows|] == rows;
  }

  // The floats a scale would be applied to, where there are any.
  function Unscaled<R>(w: Weight<R>, safe: bool): Option<seq<real>> {
    if w.int4.Some? then (if safe then w.int4.value else None)
    else if Missing(w) then None
    else if w.storage.Floats? then Some(w.storage.values)
    else if w.format.F32? || w.format.toFloat.None? then None
    else Some(Converted(w.storage.rows, w.format.toFloat.value))
  }

  lemma UnscaledSize<R(!new)>(w: Weight<R>, safe: bool)
    requires WellFormed(w) && Unscaled(w, safe).Some?
    ensures w.rows > 0 && w.cols > 0 && |Unscaled(w, safe).value| == w.rows * w.cols
  {
    if w.int4.None? && w.storage.Rows? { ConvertedLength(w.storage.rows, w.cols, w.format.toFloat.value); }
  }

  /* ---- The two constructions ---- */

  // What the uncached construction gives.
  function Uncached<R>(w: Weight<R>, safe: bool): Tensor<R> {
    var u := Unscaled(w, safe);
    if w.int4.None? && (u.None? || (w.format.F32? && w.scale.None?)) then Matrix(w.storage, w.rows, w.cols)
    else if u.None? || !Applies(w.scale, w.rows, w.cols) then Empty
    else Matrix(Floats(Scaled(w.scale, w.rows, w.cols, u.value)), w.rows, w.cols)
  }

  // The float of cell (r, c) before scaling: unpacked from INT4, stored, or converted with its row.
  ghost predicate StoredAt<R>(w: Weight<R>, r: nat, c: nat, x: real) {
    var p := r * w.cols + c;
    if w.int4.Some? then w.int4.value.Some? && 0 <= p < |w.int4.value.value| && x == w.int4.value.value[p]
    else if w.format.F32? then w.storage.Floats? && 0 <= p < |w.storage.values| && x == w.storage.values[p]
    else
      && w.storage.Rows? && w.format.toFloat.Some? && r < |w.storage.rows|
      && c < |w.format.toFloat.value(w.storage.rows[r])| && x == w.format.toFloat.value(w.storage.rows[r])[c]
  }

  ghost predicate CellHolds<R>(w: Weight<R>, scaled: bool, values: seq<real>, r: nat, c: nat) {
    var p := r * w.cols + c;
    0 <= p < |values| && exists x, factor :: StoredAt(w, r, c, x) && Scales(w, scaled, r, c, x, factor, values[p])
  }

  ghost predicate Scales<R>(w: Weight<R>, scaled: bool, r: nat, c: nat, x: real, factor: real, y: real) {
    y == x * factor && if scaled then IsFactor(w.scale, w.rows, w.cols, r, c, factor) else factor == 1.0
  }

  // The floats of the weight, cell by cell.
  ghost predicate HoldsCells<R>(w: Weight<R>, scaled: bool, values: seq<real>) {
    |values| == w.rows * w.cols &&
    forall r: nat, c: nat | r < w.rows && c < w.cols :: CellHolds(w, scaled, values, r, c)
  }

  // The weight has no floats of its own to offer: an INT4 binding only in reference mode and if it unpacks,
  // otherwise storage that is there and is F32 or can be converted.
  predicate WithoutFloats<R>(w: Weight<R>, safe: bool) {
    if w.int4.Some? then !safe || w.int4.value.None?
    else w.storage.Null? || w.rows <= 0 || w.cols <= 0 || (w.format.Other? && w.format.toFloat.None?)
  }

  // What the uncached tensor is, in terms of the weight.
  ghost predicate IsTensorOf<R>(w: Weight<R>, safe: bool, tensor: Tensor<R>) {
    if WithoutFloats(w, safe) then tensor == if w.int4.Some? then Empty else Matrix(w.storage, w.rows, w.cols)
    else if !HasFactors(w.scale, w.rows, w.cols) then tensor == Empty
    else
      && tensor.Matrix? && tensor.rows == w.rows && tensor.cols == w.cols
      && tensor.data.Floats? && HoldsCells(w, true, tensor.data.values)
  }

  lemma UnscaledCell<R(!new)>(w: Weight<R>, safe: bool, r: nat, c: nat)
    requires WellFormed(w) && Unscaled(w, safe).Some? && r < w.rows && c < w.cols
    ensures r * w.cols + c < |Unscaled(w, safe).value| == w.rows * w.cols
    ensures StoredAt(w, r, c, Unscaled(w, safe).value[r * w.cols + c])
  {
    UnscaledSize(w, safe);
    CellIndex(w.rows, w.cols, r, c);
    if w.int4.None? && w.storage.Rows? { ConvertedCell(w.storage.rows, w.cols, w.format.toFloat.value, r, c); }
  }

  lemma UnscaledCells<R(!new)>(w: Weight<R>, safe: bool)
    requires WellFormed(w)
    ensures WithoutFloats(w, safe) <==> Unscaled(w, safe).None?
    ensures Unscaled(w, safe).Some? ==> HoldsCells(w, false, Unscaled(w, safe).value)
  {
    if Unscaled(w, safe).Some? {
      UnscaledSize(w, safe);
      var values := Unscaled(w, safe).value;
      forall r: nat, c: nat | r < w.rows && c < w.cols ensures CellHolds(w, false, values, r, c) {
        UnscaledCell(w, safe, r, c);
        var x := values[r * w.cols + c];
        assert StoredAt(w, r, c, x) && Scales(w, false, r, c, x, 1.0, x);
      }
    }
  }

  lemma ScaledHoldsCells<R(!new)>(w: Weight<R>, safe: bool)
    requires WellFormed(w) && Unscaled(w, safe).Some? && HasFactors(w.scale, w.rows, w.cols)
    ensures w.rows > 0 && w.cols > 0
    ensures HoldsCells(w, true, Scaled(w.scale, w.rows, w.cols, Unscaled(w, safe).value))
  {
    UnscaledSize(w, safe);
    var was := Unscaled(w, safe).value;
    var values := Scaled(w.scale, w.rows, w.cols, was);
    ScaledCells(w.scale, w.rows, w.cols, was);
    AllHoldCells(w, safe, was, values);
  }

  lemma AllHoldCells<R(!new)>(w: Weight<R>, safe: bool, was: seq<real>, values: seq<real>)
    requires WellFormed(w) && Unscaled(w, safe) == Some(was) && w.rows > 0 && w.cols > 0
    requires |values| == w.rows * w.cols && AllScaled(w.scale, w.rows, w.cols, was, values)
    ensures HoldsCells(w, true, values)
  {
    forall r: nat, c: nat | r < w.rows && c < w.cols ensures CellHolds(w, true, values, r, c) {
      UnscaledCell(w, safe, r, c);
      assert CellScaled(w.scale, w.rows, w.cols, was, values, r, c);
      ScaledHoldsCell(w, was, values, r, c, r * w.cols + c);
    }
  }

  lemma ScaledHoldsCell<R>(w: Weight<R>, was: seq<real>, values: seq<real>, r: nat, c: nat, p: nat)
    requires w.rows >= 0 && w.cols >= 0 && p == r * w.cols + c && p < |was|
    requires StoredAt(w, r, c, was[p]) && CellScaled(w.scale, w.rows, w.cols, was, values, r, c)
    ensures CellHolds(w, true, values, r, c)
  {
    var factor :| IsFactor(w.scale, w.rows, w.cols, r, c, factor) && values[p] == was[p] * factor;
    assert Scales(w, true, r, c, was[p], factor, values[p]);
  }

  lemma UncachedIsTensorOf<R(!new)>(w: Weight<R>, safe: bool)
    requires WellFormed(w)
    ensures IsTensorOf(w, safe, Uncached(w, safe))
  {
    UnscaledCells(w, safe);
    if Unscaled(w, safe).Some? {
      UnscaledSize(w, safe);
      ScaledCells(w.scale, w.rows, w.cols, Unscaled(w, safe).value);
      if HasFactors(w.scale, w.rows, w.cols) { ScaledHoldsCells(w, safe); }
    }
  }

  /** MakeMoEWeightF32: the storage itself where it can be used as it is, otherwise floats in a scratch
      buffer, scaled. */
  method MakeWeight<R(!new)>(w: Weight<R>, safe: bool) returns (tensor: Tensor<R>)
    requires WellFormed(w)
    ensures tensor == Uncached(w, safe) && IsTensorOf(w, safe, tensor)
  {
    UncachedIsTensorOf(w, safe);
    var values;
    if w.int4.Some? {
      if !safe || w.int4.value.None? { return Empty; }
      values := w.int4.value.value;
    } else {
      if Missing(w) || (w.format.F32? && w.scale.None?) { return Matrix(w.storage, w.rows, w.cols); }
      if w.format.F32? {
        values := w.storage.values;
      } else {
        if w.format.toFloat.None? { return Matrix(w.storage, w.rows, w.cols); }
        values := ConvertRows(w.storage.rows, w.cols, w.format.toFloat.value);
      }
    }
    UnscaledSize(w, safe);
    var scratch := new real[|values|](i requires 0 <= i < |values| => values[i]);
    assert scratch[..] == values;
    var ok := ApplyScale(w.scale, w.rows, w.cols, scratch);
    tensor := if ok then Matrix(Floats(scratch[..]), w.rows, w.cols) else Empty;
  }

  // What an entry's vector holds after it was filled.
  function Vector<R>(w: Weight<R>, safe: bool, materialize: bool): Option<seq<real>> {
    var u := Unscaled(w, safe);
    if u.None? || (w.int4.None? && w.format.F32? && !materialize && w.scale.None?) then None
    else Some(Scaled(w.scale, w.rows, w.cols, u.value))
  }

  // When an entry holds floats of the weight, and which: unscaled ones if the sidecar does not fit.
  ghost predicate IsVectorOf<R>(w: Weight<R>, safe: bool, materialize: bool, vector: Option<seq<real>>) {
    && (vector.None? <==>
          WithoutFloats(w, safe) || (w.int4.None? && w.format.F32? && w.scale.None? && !materialize))
    && (vector.Some? ==> HoldsCells(w, HasFactors(w.scale, w.rows, w.cols), vector.value))
  }

  lemma VectorIsVectorOf<R(!new)>(w: Weight<R>, safe: bool, materialize: bool)
    requires WellFormed(w)
    ensures IsVectorOf(w, safe, materialize, Vector(w, safe, materialize))
  {
    UnscaledCells(w, safe);
    if Unscaled(w, safe).Some? {
      UnscaledSize(w, safe);
      ScaledCells(w.scale, w.rows, w.cols, Unscaled(w, safe).value);
      if HasFactors(w.scale, w.rows, w.cols) { ScaledHoldsCells(w, safe); }
    }
  }

  /** DequantizeMoEWeightToVector. The verdict is not looked at by the caller, and the vector is kept when the
      scale did not apply. */
  method FillVector<R(!new)>(w: Weight<R>, safe: bool, materialize: bool) returns (ok: bool, vector: Option<seq<real>>)
    requires WellFormed(w)
    ensures vector == Vector(w, safe, materialize) && IsVectorOf(w, safe, materialize, vector)
    ensures ok && vector.Some? ==> Matrix(Floats(vector.value), w.rows, w.cols) == Uncached(w, safe)
    ensures !ok && vector.Some? ==> vector == Unscaled(w, safe) && Uncached(w, safe) == Empty
  {
    VectorIsVectorOf(w, safe, materialize);
    var values;
    if w.int4.Some? {
      if !safe || w.int4.value.None? { return false, None; }
      values := w.int4.value.value;
    } else {
      if Missing(w) { return false, None; }
      if w.format.F32? && !materialize && w.scale.None? { return true, None; }
      if w.format.F32? {
        values := w.storage.values;
      } else {
        if w.format.toFloat.None? { return false, None; }
        values := ConvertRows(w.storage.rows, w.cols, w.format.toFloat.value);
      }
    }
    UnscaledSize(w, safe);
    var dst := new real[|values|](i requires 0 <= i < |values| => values[i]);
    assert dst[..] == values;
    ok := ApplyScale(w.scale, w.rows, w.cols, dst);
    vector := Some(dst[..]);
  }

  // RefreshMoEDequantCacheTensors.
  function EntryTensor<R>(w: Weight<R>, safe: bool, materialize: bool): Tensor<R> {
    var v := Vector(w, safe, materialize);
    if v.None? then Empty else Matrix(Floats(v.value), w.rows, w.cols)
  }

  /* ---- Which tensor each path picks, given an entry ---- */

  predicate SmallUsesEntry<R>(w: Weight<R>, safe: bool) {
    w.scale.Some? || ((w.int4.None? || safe) && !w.format.F32?)
  }

  // The small-decode path.
  function SmallPick<R>(w: Weight<R>, safe: bool, materialize: bool): Tensor<R> {
    if SmallUsesEntry(w, safe) then EntryTensor(w, safe, materialize) else Uncached(w, safe)
  }

  // The batched path.
  function BatchedPick<R>(w: Weight<R>, safe: bool, materialize: bool): Tensor<R> {
    if w.int4.Some? && !safe && w.scale.None? then Empty
    else if w.format.F32? && w.scale.None? then Matrix(w.storage, w.rows, w.cols)
    else EntryTensor(w, safe, materialize)
  }

  /* ---- When they agree ---- */

  // The weight has no floats to offer although it is not bound to INT4: it is missing, or its format has
  // no conversion.
  predicate NoFloats<R>(w: Weight<R>) {
    w.int4.None? && (Missing(w) || (w.format.Other? && w.format.toFloat.None?))
  }

  predicate ScaleFails<R>(w: Weight<R>, safe: bool) {
    Unscaled(w, safe).Some? && !Applies(w.scale, w.rows, w.cols)
  }

  // Bound to INT4 and of type F32 at once, in reference mode: the batched path takes the storage, the
  // uncached construction the unpacked binding.
  predicate TwoSources<R>(w: Weight<R>, safe: bool) { w.int4.Some? && safe && w.format.F32? && w.scale.None? }

  /** The small-decode path picks what the uncached construction builds, whichever way the entry was filled,
      unless it relies on the entry for a weight without floats, which it does for every format but F32 and for
      every weight with a sidecar, or for one with a failing scale. */
  lemma SmallPathAgrees<R(!new)>(w: Weight<R>, safe: bool, materialize: bool)
    requires WellFormed(w)
    ensures SmallPick(w, safe, materialize) == Uncached(w, safe) <==>
      !(NoFloats(w) && (w.scale.Some? || w.format.Other?)) && !ScaleFails(w, safe)
  {}

  // An entry whose scale did not apply serves the unscaled floats, where the uncached construction gives up.
  lemma EntryServesUnscaled<R>(w: Weight<R>, safe: bool, materialize: bool)
    requires ScaleFails(w, safe)
    ensures EntryTensor(w, safe, materialize) == Matrix(Floats(Unscaled(w, safe).value), w.rows, w.cols)
    ensures Uncached(w, safe) == Empty
  {}

  /** The batched path agrees under the same condition, unless the weight has two sources: then only if they
      hold the same matrix. */
  lemma BatchedPathAgrees<R(!new)>(w: Weight<R>, safe: bool, materialize: bool)
    requires WellFormed(w)
    ensures !TwoSources(w, safe) ==>
      (BatchedPick(w, safe, materialize) == Uncached(w, safe) <==>
       (w.format.F32? && w.scale.None?) || !(NoFloats(w) || ScaleFails(w, safe)))
    ensures TwoSources(w, safe) ==>
      (BatchedPick(w, safe, materialize) == Uncached(w, safe) <==>
       w.int4.value.Some? && w.storage == Floats(w.int4.value.value))
  {}

  // How the entry was filled does not show in what either path picks.
  lemma MaterializeIsIrrelevant<R>(w: Weight<R>, safe: bool)
    ensures SmallPick(w, safe, true) == SmallPick(w, safe, false)
    ensures BatchedPick(w, safe, true) == BatchedPick(w, safe, false)
  {}

  /* ---- An expert ---- */

  // `w1` and `w3` never have a sidecar; `w3` takes part only if it is there.
  datatype Expert<!R> = Expert(w1: Weight<R>, w2: Weight<R>, w3: Weight<R>)

  predicate HasUp<R>(e: Expert<R>) { !e.w3.storage.Null? || e.w3.int4.Some? }

  ghost predicate ValidExpert<R(!new)>(e: Expert<R>) {
    WellFormed(e.w1) && WellFormed(e.w2) && WellFormed(e.w3) && e.w1.scale.None? && e.w3.scale.None?
  }

  datatype Tensors<R> = Tensors(w1: Tensor<R>, w2: Tensor<R>, w3: Tensor<R>)

  function Built<R>(e: Expert<R>, safe: bool): Tensors<R> {
    Tensors(Uncached(e.w1, safe), Uncached(e.w2, safe), if HasUp(e) then Uncached(e.w3, safe) else Empty)
  }

  function Picked<R>(e: Expert<R>, safe: bool, materialize: bool, batched: bool): Tensors<R> {
    if batched then
      Tensors(BatchedPick(e.w1, safe, materialize), BatchedPick(e.w2, safe, materialize),
              if HasUp(e) then BatchedPick(e.w3, safe, materialize) else Empty)
    else
      Tensors(SmallPick(e.w1, safe, materialize), SmallPick(e.w2, safe, materialize),
              if HasUp(e) then SmallPick(e.w3, safe, materialize) else Empty)
  }

  predicate Sound<R>(w: Weight<R>, safe: bool) { !NoFloats(w) && !ScaleFails(w, safe) && !TwoSources(w, safe) }

  /** For an expert whose weights all have floats, a scale that applies, and one source each, the cached and
      the uncached tensors are the same on both paths, whichever path filled the entry. */
  lemma CachedExpertAgrees<R(!new)>(e: Expert<R>, safe: bool, materialize: bool, batched: bool)
    requires ValidExpert(e) && Sound(e.w1, safe) && Sound(e.w2, safe) && (HasUp(e) ==> Sound(e.w3, safe))
    ensures Picked(e, safe, materialize, batched) == Built(e, safe)
  {
    SmallPathAgrees(e.w1, safe, materialize);
    SmallPathAgrees(e.w2, safe, materialize);
    SmallPathAgrees(e.w3, safe, materialize);
    BatchedPathAgrees(e.w1, safe, materialize);
    BatchedPathAgrees(e.w2, safe, materialize);
    BatchedPathAgrees(e.w3, safe, materialize);
  }

  /* ---- Memory ---- */

  // GetExpertMatrixDequantBytes: what an entry is charged for the weight.
  function ChargedBytes<R>(w: Weight<R>, safe: bool): int {
    if w.rows <= 0 || w.cols <= 0 then 0
    else if w.format.F32? then (if w.scale.Some? then w.rows * w.cols * 4 else 0)
    else if w.int4.Some? then (if safe then w.rows * w.cols * 4 else 0)
    else w.rows * w.cols * 4
  }

  function HeldBytes<R>(w: Weight<R>, safe: bool, materialize: bool): int {
    if Vector(w, safe, materialize).Some? then w.rows * w.cols * 4 else 0
  }

  predicate HoldsFloats<R>(w: Weight<R>, safe: bool, materialize: bool) { Vector(w, safe, materialize).Some? }

  predicate IsCharged<R>(w: Weight<R>, safe: bool) {
    w.rows > 0 && w.cols > 0 && if w.format.F32? then w.scale.Some? else w.int4.None? || safe
  }

  // The entry holds floats of the weight that nobody counts: those of an F32 weight without sidecar, copied
  // because `materialize` was set or unpacked from its INT4 binding.
  predicate Uncharged<R>(w: Weight<R>, safe: bool, materialize: bool) {
    w.format.F32? && w.scale.None? && Unscaled(w, safe).Some? && (w.int4.Some? || materialize)
  }

  // The weight is counted although it leaves nothing in the entry.
  predicate Unused<R>(w: Weight<R>, safe: bool) { IsCharged(w, safe) && Unscaled(w, safe).None? }

  lemma ChargeOfWeight<R(!new)>(w: Weight<R>, safe: bool, materialize: bool)
    requires WellFormed(w)
    ensures Uncharged(w, safe, materialize) <==> HoldsFloats(w, safe, materialize) && !IsCharged(w, safe)
    ensures Unused(w, safe) <==> IsCharged(w, safe) && !HoldsFloats(w, safe, materialize)
    ensures HoldsFloats(w, safe, materialize) ==> w.rows > 0 && w.cols > 0
  {
    if Unscaled(w, safe).Some? { UnscaledSize(w, safe); }
  }

  // Four bytes per float: held for the floats an entry has, charged for the floats a charged weight yields.
  lemma BytesAreFloats<R(!new)>(w: Weight<R>, safe: bool, materialize: bool)
    requires WellFormed(w)
    ensures HeldBytes(w, safe, materialize) ==
      if Vector(w, safe, materialize).Some? then 4 * |Vector(w, safe, materialize).value| else 0
    ensures Unscaled(w, safe).Some? ==>
      ChargedBytes(w, safe) == if IsCharged(w, safe) then 4 * |Unscaled(w, safe).value| else 0
  {
    if Unscaled(w, safe).Some? { UnscaledSize(w, safe); }
  }

  // The three matrices of an expert have the same area.
  predicate SameArea<R>(e: Expert<R>) {
    e.w2.rows == e.w1.cols && e.w2.cols == e.w1.rows && e.w3.rows == e.w1.rows && e.w3.cols == e.w1.cols
  }

  function One(b: bool): nat { if b then 1 else 0 }

  // GetMoEExpertDequantCacheBytes: what an entry is charged.
  function EntryCharge<R>(e: Expert<R>, safe: bool): int {
    ChargedBytes(e.w1, safe) + ChargedBytes(e.w2, safe) + if HasUp(e) then ChargedBytes(e.w3, safe) else 0
  }

  function EntryHeld<R>(e: Expert<R>, safe: bool, materialize: bool): int {
    HeldBytes(e.w1, safe, materialize) + HeldBytes(e.w2, safe, materialize) +
    if HasUp(e) then HeldBytes(e.w3, safe, materialize) else 0
  }

  function UnchargedWeights<R>(e: Expert<R>, safe: bool, materialize: bool): nat {
    One(Uncharged(e.w1, safe, materialize)) + One(Uncharged(e.w2, safe, materialize)) +
    One(HasUp(e) && Uncharged(e.w3, safe, materialize))
  }

  function UnusedWeights<R>(e: Expert<R>, safe: bool): nat {
    One(Unused(e.w1, safe)) + One(Unused(e.w2, safe)) + One(HasUp(e) && Unused(e.w3, safe))
  }

  // The bytes of one weight, counted in matrices.
  lemma BytesOfWeight<R(!new)>(w: Weight<R>, safe: bool, materialize: bool, area: int)
    requires WellFormed(w) && (w.rows > 0 && w.cols > 0 ==> area == w.rows * w.cols * 4)
    ensures HeldBytes(w, safe, materialize) == One(HoldsFloats(w, safe, materialize)) * area
    ensures ChargedBytes(w, safe) == One(IsCharged(w, safe)) * area
  {
    ChargeOfWeight(w, safe, materialize);
  }

  /** An entry holds no more than it is charged for exactly if the weights it holds uncharged are no more than
      the weights it is charged for in vain. */
  lemma ChargeCoversEntry<R(!new)>(e: Expert<R>, safe: bool, materialize: bool)
    requires ValidExpert(e) && SameArea(e)
    ensures EntryHeld(e, safe, materialize) <= EntryCharge(e, safe) <==>
      UnchargedWeights(e, safe, materialize) <= UnusedWeights(e, safe)
  {
    ChargeOfWeight(e.w1, safe, materialize);
    ChargeOfWeight(e.w2, safe, materialize);
    ChargeOfWeight(e.w3, safe, materialize);
    var held := One(HoldsFloats(e.w1, safe, materialize)) + One(HoldsFloats(e.w2, safe, materialize)) +
      One(HasUp(e) && HoldsFloats(e.w3, safe, materialize));
    var charged := One(IsCharged(e.w1, safe)) + One(IsCharged(e.w2, safe)) + One(HasUp(e) && IsCharged(e.w3, safe));
    assert held - charged == UnchargedWeights(e, safe, materialize) - UnusedWeights(e, safe);
    if e.w1.rows > 0 && e.w1.cols > 0 {
      var area := e.w1.rows * e.w1.cols * 4;
      Area(e.w1.rows, e.w1.cols);
      BytesOfExpert(e, safe, materialize, area);
      Compare(held, charged, area);
    }
  }

  lemma BytesOfExpert<R(!new)>(e: Expert<R>, safe: bool, materialize: bool, area: int)
    requires ValidExpert(e) && SameArea(e) && area == e.w1.rows * e.w1.cols * 4
    ensures EntryHeld(e, safe, materialize) ==
      (One(HoldsFloats(e.w1, safe, materialize)) + One(HoldsFloats(e.w2, safe, materialize)) +
       One(HasUp(e) && HoldsFloats(e.w3, safe, materialize))) * area
    ensures EntryCharge(e, safe) ==
      (One(IsCharged(e.w1, safe)) + One(IsCharged(e.w2, safe)) + One(HasUp(e) && IsCharged(e.w3, safe))) * area
  {
    assert e.w2.rows * e.w2.cols == e.w1.rows * e.w1.cols;
    BytesOfWeight(e.w1, safe, materialize, area);
    BytesOfWeight(e.w2, safe, materialize, area);
    BytesOfWeight(e.w3, safe, materialize, area);
  }

  lemma Compare(a: nat, b: nat, area: nat)
    requires area > 0
    ensures a * area <= b * area <==> a <= b
  {
    if a <= b { MulMono(area, a, b); } else { MulMono(area, b + 1, a); assert area * (b + 1) == area * b + area; }
  }

  // An expert over its charge: a gate projection with a conversion next to an F32 down projection without
  // sidecar, cached by the batched path, takes twice what it is charged.
  lemma TwiceTheCharge<R(!new)>(e: Expert<R>)
    requires ValidExpert(e) && SameArea(e) && !HasUp(e)
    requires IsCharged(e.w1, false) && Unscaled(e.w1, false).Some?
    requires e.w2.format.F32? && e.w2.scale.None? && e.w2.int4.None? && !Missing(e.w2)
    ensures EntryHeld(e, false, true) == 2 * EntryCharge(e, false) > 0
  {
    ChargeOfWeight(e.w1, false, true);
    ChargeOfWeight(e.w2, false, true);
    Area(e.w1.rows, e.w1.cols);
    assert e.w2.rows * e.w2.cols == e.w1.rows * e.w1.cols;
  }

  lemma Area(rows: int, cols: int)
    requires rows > 0 && cols > 0
    ensures rows * cols * 4 > 0
  {}
}
