/** The Q4_K dense products: a batch of rows is cut into chunks, row groups, column tiles and tail rows
    whose cells are addressed by quotients and remainders. Every cell of the flat output is written once,
    with the value of the plain row-by-column product. */
module Q4KTiling {
  import opened Arithmetic
  import opened Ordering

  // `dot(quant(x), j)` is column j of the product for the row x. The kernels are taken at this contract.
  datatype Product<!X, !Q, V> = Product(x: seq<X>, cols: nat, quant: X -> Q, dot: (Q, nat) -> V)

  // The plain product, at flat index p.
  function Plain<X, Q, V>(m: Product<X, Q, V>, p: nat): V
    requires m.cols > 0 && p / m.cols < |m.x|
  {
    m.dot(m.quant(m.x[p / m.cols]), p % m.cols)
  }

  // Cell p was written `count` times; if at all, with its plain value.
  ghost predicate CellOk<X, Q, V>(m: Product<X, Q, V>, out: seq<V>, writes: seq<nat>, p: nat, count: nat) {
    p < |out| == |writes| && m.cols > 0 && p / m.cols < |m.x| ==>
      writes[p] == count && (count > 0 ==> out[p] == Plain(m, p))
  }

  ghost predicate Complete<X, Q, V>(m: Product<X, Q, V>, out: seq<V>, writes: seq<nat>) {
    |out| == |writes| == |m.x| * m.cols && forall p: nat | p < |out| :: CellOk(m, out, writes, p, 1)
  }

  lemma RowOfCell(rows: nat, cols: nat, p: nat)
    requires cols > 0
    ensures p < rows * cols <==> p / cols < rows
  {
    DivBounds(p, cols, rows);
  }

  // What a complete output holds, row by column.
  lemma CompleteMeans<X, Q, V>(m: Product<X, Q, V>, out: seq<V>, writes: seq<nat>, i: nat, j: nat)
    requires Complete(m, out, writes) && i < |m.x| && j < m.cols
    ensures i * m.cols + j < |out| && writes[i * m.cols + j] == 1
    ensures out[i * m.cols + j] == m.dot(m.quant(m.x[i]), j)
  {
    var p := i * m.cols + j;
    assert p == m.cols * i + j;
    DivUnique(p, m.cols, i, j);
    RowOfCell(|m.x|, m.cols, p);
    assert CellOk(m, out, writes, p, 1);
  }

  /* ---- Row chunks of the raw path ---- */

  const MaxRawBatch: nat := 256

  // The cells of the rows below `rows` are done, the others untouched.
  ghost predicate RowsDone<X, Q, V>(m: Product<X, Q, V>, out: seq<V>, writes: seq<nat>, rows: nat) {
    |out| == |writes| == |m.x| * m.cols &&
    forall p: nat | p < |out| :: CellOk(m, out, writes, p, if m.cols > 0 && p / m.cols < rows then 1 else 0)
  }

  // One cell of the next row.
  lemma NextCell<X, Q, V>(m: Product<X, Q, V>, out: seq<V>, i: nat, j: nat)
    requires |out| == |m.x| * m.cols && i < |m.x| && j < m.cols
    ensures i * m.cols + j < |out|
    ensures (i * m.cols + j) / m.cols == i && (i * m.cols + j) % m.cols == j
    ensures forall p: nat | p / m.cols == i && p % m.cols == j :: p == i * m.cols + j
  {
    assert i * m.cols + j == m.cols * i + j;
    DivUnique(i * m.cols + j, m.cols, i, j);
    RowOfCell(|m.x|, m.cols, i * m.cols + j);
    forall p: nat | p / m.cols == i && p % m.cols == j ensures p == i * m.cols + j {
      assert p == m.cols * (p / m.cols) + p % m.cols;
    }
  }

  // Row i is done up to column j.
  ghost predicate RowPartly<X, Q, V>(m: Product<X, Q, V>, out: seq<V>, writes: seq<nat>, i: nat, j: nat) {
    |out| == |writes| == |m.x| * m.cols &&
    forall p: nat | p < |out| ::
      CellOk(m, out, writes, p, if m.cols > 0 && (p / m.cols < i || (p / m.cols == i && p % m.cols < j)) then 1 else 0)
  }

  lemma WriteNext<X, Q, V>(m: Product<X, Q, V>, out: seq<V>, writes: seq<nat>, i: nat, j: nat, v: V)
    requires RowPartly(m, out, writes, i, j) && i < |m.x| && j < m.cols && v == m.dot(m.quant(m.x[i]), j)
    ensures i * m.cols + j < |out|
    ensures RowPartly(m, out[i * m.cols + j := v], writes[i * m.cols + j := writes[i * m.cols + j] + 1], i, j + 1)
  {
    NextCell(m, out, i, j);
    var q := i * m.cols + j;
    assert CellOk(m, out, writes, q, 0);
    forall p: nat | p < |out|
      ensures CellOk(m, out[q := v], writes[q := writes[q] + 1], p,
                     if p / m.cols < i || (p / m.cols == i && p % m.cols < j + 1) then 1 else 0)
    {
      assert CellOk(m, out, writes, p, if p / m.cols < i || (p / m.cols == i && p % m.cols < j) then 1 else 0);
    }
  }

  // A kernel that computes the product for the rows [first, first + count) from their quantised form.
  method ProjectRows<X, Q, V>(m: Product<X, Q, V>, quantised: seq<Q>, first: nat, count: nat, out: array<V>,
                              ghost writes: seq<nat>)
    returns (ghost writes': seq<nat>)
    requires first + count <= |m.x| && count <= |quantised|
    requires forall r | 0 <= r < count :: quantised[r] == m.quant(m.x[first + r])
    requires RowsDone(m, out[..], writes, first)
    modifies out
    ensures RowsDone(m, out[..], writes', first + count)
  {
    writes' := writes;
    for r := 0 to count
      invariant RowsDone(m, out[..], writes', first + r)
    {
      for j := 0 to m.cols
        invariant RowPartly(m, out[..], writes', first + r, j)
      {
        ghost var before := out[..];
        WriteNext(m, before, writes', first + r, j, m.dot(quantised[r], j));
        var p := (first + r) * m.cols + j;
        out[p] := m.dot(quantised[r], j);
        writes' := writes'[p := writes'[p] + 1];
      }
      RowFinished(m, out[..], writes', first + r);
    }
  }

  lemma RowFinished<X, Q, V>(m: Product<X, Q, V>, out: seq<V>, writes: seq<nat>, i: nat)
    requires RowPartly(m, out, writes, i, m.cols)
    ensures RowsDone(m, out, writes, i + 1)
  {
    forall p: nat | p < |out| ensures CellOk(m, out, writes, p, if m.cols > 0 && p / m.cols < i + 1 then 1 else 0) {
      assert CellOk(m, out, writes, p,
                    if m.cols > 0 && (p / m.cols < i || (p / m.cols == i && p % m.cols < m.cols)) then 1 else 0);
    }
  }

  method QuantiseChunk<X, Q, V>(m: Product<X, Q, V>, stale: seq<Q>, first: nat, count: nat) returns (scratch: seq<Q>)
    requires first + count <= |m.x| && count <= |stale|
    ensures |scratch| == |stale| && forall r | 0 <= r < count :: scratch[r] == m.quant(m.x[first + r])
  {
    scratch := stale;
    for r := 0 to count
      invariant |scratch| == |stale| && forall k | 0 <= k < r :: scratch[k] == m.quant(m.x[first + k])
    {
      scratch := scratch[r := m.quant(m.x[first + r])];
    }
  }

  /** RunQ4KRawBatchedDenseGemm: chunks of up to 256 rows through one scratch buffer, which keeps stale
      rows of the chunk before. The projection of chunk c succeeds if `projects(c)`; the first that does
      not ends the call. */
  method RawBatchedGemm<X, Q, V>(m: Product<X, Q, V>, admitted: bool, stale: seq<Q>, out: array<V>,
                                 projects: nat -> bool)
    returns (ok: bool, ghost writes: seq<nat>)
    requires out.Length == |m.x| * m.cols && |stale| >= MaxRawBatch
    modifies out
    ensures ok <==> admitted && |m.x| > 0 && m.cols > 0 && forall c: nat | c * 256 < |m.x| :: projects(c)
    ensures ok ==> Complete(m, out[..], writes)
    ensures !admitted || |m.x| == 0 || m.cols == 0 ==> out[..] == old(out[..])
  {
    writes := seq(out.Length, _ => 0);
    ok := false;
    if !admitted || |m.x| == 0 || m.cols == 0 { return; }
    var scratch, offset := stale, 0;
    ghost var chunk: nat := 0;
    while offset < |m.x|
      invariant offset == chunk * MaxRawBatch && |scratch| == |stale|
      invariant RowsDone(m, out[..], writes, if offset <= |m.x| then offset else |m.x|)
      invariant forall c: nat | c < chunk :: projects(c)
      decreases |m.x| - offset
    {
      var count := if MaxRawBatch <= |m.x| - offset then MaxRawBatch else |m.x| - offset;
      scratch := QuantiseChunk(m, scratch, offset, count);
      if !projects(offset / MaxRawBatch) { return; }
      writes := ProjectRows(m, scratch, offset, count, out, writes);
      offset, chunk := offset + MaxRawBatch, chunk + 1;
    }
    ok := true;
    AllRowsDone(m, out[..], writes);
  }

  lemma AllRowsDone<X, Q, V>(m: Product<X, Q, V>, out: seq<V>, writes: seq<nat>)
    requires RowsDone(m, out, writes, |m.x|)
    ensures Complete(m, out, writes)
  {
    forall p: nat | p < |out| ensures CellOk(m, out, writes, p, 1) {
      assert CellOk(m, out, writes, p, if m.cols > 0 && p / m.cols < |m.x| then 1 else 0);
    }
  }

  /* ---- Blocks of rows by 8 columns ---- */

  function TimesWritten(done: set<nat>, p: nat): nat { if p in done then 1 else 0 }

  // Exactly the cells of `done` have been written.
  ghost predicate Done<X, Q, V>(m: Product<X, Q, V>, out: seq<V>, writes: seq<nat>, done: set<nat>) {
    |out| == |writes| == |m.x| * m.cols &&
    forall p: nat | p < |out| :: CellOk(m, out, writes, p, TimesWritten(done, p))
  }

  lemma WriteCell<X, Q, V>(m: Product<X, Q, V>, out: seq<V>, writes: seq<nat>, done: set<nat>, q: nat, v: V)
    requires Done(m, out, writes, done) && q < |out| && q !in done
    requires m.cols > 0 && q / m.cols < |m.x| && v == Plain(m, q)
    ensures Done(m, out[q := v], writes[q := writes[q] + 1], done + {q})
  {
    assert CellOk(m, out, writes, q, TimesWritten(done, q));
    forall p: nat | p < |out|
      ensures CellOk(m, out[q := v], writes[q := writes[q] + 1], p, TimesWritten(done + {q}, p))
    {
      assert CellOk(m, out, writes, p, TimesWritten(done, p));
    }
  }

  // Columns [8k, 8k + 8) of the rows [first, first + n).
  predicate InBlock(cols: nat, first: nat, n: nat, k: nat, p: nat)
    requires cols > 0
  {
    first <= p / cols < first + n && (p % cols) / 8 == k
  }

  function Block<X, Q, V>(m: Product<X, Q, V>, first: nat, n: nat, k: nat): set<nat>
    requires m.cols > 0
  {
    set p: nat | p < |m.x| * m.cols && InBlock(m.cols, first, n, k, p)
  }

  // The first r rows of the block, and c columns of the next.
  predicate InPart(cols: nat, first: nat, k: nat, r: nat, c: nat, p: nat)
    requires cols > 0
  {
    InBlock(cols, first, r, k, p) || (InBlock(cols, first + r, 1, k, p) && (p % cols) % 8 < c)
  }

  function BlockPart<X, Q, V>(m: Product<X, Q, V>, first: nat, k: nat, r: nat, c: nat): set<nat>
    requires m.cols > 0
  {
    set p: nat | p < |m.x| * m.cols && InPart(m.cols, first, k, r, c, p)
  }

  // Where the next cell of a block lies.
  lemma NextCellOfBlock(rows: nat, cols: nat, row: nat, k: nat, c: nat, q: nat)
    requires row < rows && c < 8 && 8 * k + c < cols && q == row * cols + 8 * k + c
    ensures q < rows * cols && q / cols == row && q % cols == 8 * k + c
    ensures (q % cols) / 8 == k && (q % cols) % 8 == c
  {
    var col := 8 * k + c;
    assert q == cols * row + col;
    DivUnique(q, cols, row, col);
    DivUnique(col, 8, k, c);
    RowOfCell(rows, cols, q);
  }

  lemma OnlyCell(cols: nat, row: nat, k: nat, c: nat, p: nat, q: nat)
    requires cols > 0 && q == row * cols + 8 * k + c
    requires p / cols == row && (p % cols) / 8 == k && (p % cols) % 8 == c
    ensures p == q
  {
    var col := p % cols;
    assert p == cols * (p / cols) + col;
    assert col == 8 * (col / 8) + col % 8;
    assert cols * row == row * cols;
  }

  // The next column of the part adds the cell q and no other.
  lemma InPartNext(cols: nat, first: nat, k: nat, r: nat, c: nat, p: nat, q: nat)
    requires cols > 0 && c < 8 && q == (first + r) * cols + 8 * k + c
    requires q / cols == first + r && (q % cols) / 8 == k && (q % cols) % 8 == c
    ensures InPart(cols, first, k, r, c + 1, p) <==> InPart(cols, first, k, r, c, p) || p == q
    ensures !InPart(cols, first, k, r, c, q)
  {
    if InBlock(cols, first + r, 1, k, p) && (p % cols) % 8 == c { OnlyCell(cols, first + r, k, c, p, q); }
  }

  lemma PartNext<X, Q, V>(m: Product<X, Q, V>, first: nat, k: nat, r: nat, c: nat)
    requires first + r < |m.x| && c < 8 && 8 * k + c < m.cols
    ensures var q := (first + r) * m.cols + 8 * k + c;
      && q < |m.x| * m.cols && q / m.cols == first + r && q % m.cols == 8 * k + c
      && q !in BlockPart(m, first, k, r, c)
      && BlockPart(m, first, k, r, c + 1) == BlockPart(m, first, k, r, c) + {q}
  {
    var q := (first + r) * m.cols + 8 * k + c;
    NextCellOfBlock(|m.x|, m.cols, first + r, k, c, q);
    forall p: nat
      ensures InPart(m.cols, first, k, r, c + 1, p) <==> InPart(m.cols, first, k, r, c, p) || p == q
      ensures !InPart(m.cols, first, k, r, c, q)
    {
      InPartNext(m.cols, first, k, r, c, p, q);
    }
  }

  lemma PartRow<X, Q, V>(m: Product<X, Q, V>, first: nat, k: nat, r: nat)
    requires m.cols > 0
    ensures BlockPart(m, first, k, 0, 0) == {} && BlockPart(m, first, k, r, 0) == Block(m, first, r, k)
    ensures BlockPart(m, first, k, r, 8) == BlockPart(m, first, k, r + 1, 0)
  {
    forall p: nat
      ensures p !in BlockPart(m, first, k, 0, 0)
      ensures p in BlockPart(m, first, k, r, 0) <==> p in Block(m, first, r, k)
      ensures p in BlockPart(m, first, k, r, 8) <==> p in BlockPart(m, first, k, r + 1, 0)
    {
      var row, col := p / m.cols, p % m.cols;
      assert InBlock(m.cols, first, r + 1, k, p) <==>
        (InBlock(m.cols, first, r, k, p) || InBlock(m.cols, first + r, 1, k, p));
    }
  }

  // A tile kernel: the block's rows in quantised form, times 8 packed columns.
  method RunBlock<X, Q, V>(m: Product<X, Q, V>, quantised: seq<Q>, first: nat, n: nat, k: nat, out: array<V>,
                           ghost writes: seq<nat>, ghost done: set<nat>)
    returns (ghost writes': seq<nat>)
    requires first + n <= |m.x| && n <= |quantised| && 8 * k + 8 <= m.cols
    requires forall r | 0 <= r < n :: quantised[r] == m.quant(m.x[first + r])
    requires Done(m, out[..], writes, done) && done !! Block(m, first, n, k)
    modifies out
    ensures Done(m, out[..], writes', done + Block(m, first, n, k))
  {
    writes' := writes;
    PartRow(m, first, k, 0);
    assert done + {} == done;
    for r := 0 to n
      invariant Done(m, out[..], writes', done + BlockPart(m, first, k, r, 0))
    {
      for c := 0 to 8
        invariant Done(m, out[..], writes', done + BlockPart(m, first, k, r, c))
      {
        PartNext(m, first, k, r, c);
        var q := (first + r) * m.cols + 8 * k + c;
        assert q in Block(m, first, n, k);
        WriteCell(m, out[..], writes', done + BlockPart(m, first, k, r, c), q, m.dot(quantised[r], 8 * k + c));
        assert done + BlockPart(m, first, k, r, c) + {q} == done + BlockPart(m, first, k, r, c + 1);
        out[q] := m.dot(quantised[r], 8 * k + c);
        writes' := writes'[q := writes'[q] + 1];
      }
      PartRow(m, first, k, r);
    }
    PartRow(m, first, k, n);
  }

  /* ---- The repacked path ---- */

  // Unit u is column tile u % tiles of row group u / tiles.
  function UnitOf(cols: nat, p: nat): nat
    requires cols >= 8
  {
    UnitAt(p / cols, p % cols, cols / 8)
  }

  function UnitAt(row: nat, col: nat, tiles: nat): nat { row / 4 * tiles + col / 8 }

  // The cells of the 4-row groups whose unit is no longer pending.
  function UnitCells<X, Q, V>(m: Product<X, Q, V>, pending: set<int>): set<nat>
    requires m.cols >= 8
  {
    set p: nat | p < |m.x| * m.cols && p / m.cols < |m.x| / 4 * 4 && UnitOf(m.cols, p) !in pending
  }

  lemma UnitIsBlock(cols: nat, p: nat, u: nat)
    requires cols >= 8 && cols % 8 == 0
    ensures UnitOf(cols, p) == u <==> p / cols / 4 == u / (cols / 8) && (p % cols) / 8 == u % (cols / 8)
  {
    var tiles, g, k := cols / 8, p / cols / 4, (p % cols) / 8;
    assert k < tiles;
    assert g * tiles + k == tiles * g + k;
    DivUnique(tiles * g + k, tiles, g, k);
    assert u == tiles * (u / tiles) + u % tiles;
  }

  lemma UnitInRange(row: nat, col: nat, groups: nat, tiles: nat)
    requires row < groups * 4 && col < tiles * 8
    ensures UnitAt(row, col, tiles) < groups * tiles
  {
    PairBelow(row / 4, col / 8, tiles, groups);
  }

  lemma TakeUnit<X, Q, V>(m: Product<X, Q, V>, pending: set<int>, u: nat)
    requires m.cols >= 8 && m.cols % 8 == 0 && u in pending && u < |m.x| / 4 * (m.cols / 8)
    ensures u / (m.cols / 8) < |m.x| / 4 && u % (m.cols / 8) < m.cols / 8
    ensures UnitCells(m, pending) !! Block(m, u / (m.cols / 8) * 4, 4, u % (m.cols / 8))
    ensures UnitCells(m, pending - {u}) == UnitCells(m, pending) + Block(m, u / (m.cols / 8) * 4, 4, u % (m.cols / 8))
  {
    var tiles := m.cols / 8;
    DivBounds(u, tiles, |m.x| / 4);
    forall p: nat
      ensures InBlock(m.cols, u / tiles * 4, 4, u % tiles, p) <==> UnitOf(m.cols, p) == u
    {
      UnitIsBlock(m.cols, p, u);
    }
    forall p: nat | UnitOf(m.cols, p) == u ensures p / m.cols < |m.x| / 4 * 4 { UnitIsBlock(m.cols, p, u); }
  }

  lemma UnitBelow(row: nat, col: nat, cols: nat, groups: nat, tiles: nat)
    requires cols == tiles * 8 && col < cols && row < groups * 4
    ensures UnitAt(row, col, cols / 8) < groups * tiles
  {
    UnitInRange(row, col, groups, tiles);
  }

  lemma CellSplit(p: nat, cols: nat) returns (row: nat, col: nat)
    requires cols > 0
    ensures row == p / cols && col == p % cols && col < cols
  {
    row, col := p / cols, p % cols;
  }

  lemma UnitPending(cols: nat, p: nat, groups: nat, tiles: nat, total: nat)
    requires cols == tiles * 8 && tiles > 0 && p / cols < groups * 4 && total == groups * tiles
    ensures UnitOf(cols, p) < total
  {
    var row, col := CellSplit(p, cols);
    UnitBelow(row, col, cols, groups, tiles);
    assert UnitOf(cols, p) == UnitAt(row, col, cols / 8);
  }

  lemma NoUnitYet<X, Q, V>(m: Product<X, Q, V>, groups: nat, tiles: nat, total: nat, pending: set<int>)
    requires m.cols == tiles * 8 && tiles > 0 && groups == |m.x| / 4
    requires total == groups * tiles && pending == Upto(total)
    ensures UnitCells(m, pending) == {}
  {
    forall p: nat ensures p !in UnitCells(m, pending) {
      if p / m.cols < groups * 4 { UnitPending(m.cols, p, groups, tiles, total); }
    }
  }

  method RunUnit<X, Q, V>(m: Product<X, Q, V>, groups: seq<seq<Q>>, u: nat, out: array<V>, ghost writes: seq<nat>,
                          ghost pending: set<int>)
    returns (ghost writes': seq<nat>)
    requires m.cols >= 8 && m.cols % 8 == 0 && |groups| == |m.x| / 4
    requires u in pending && u < |m.x| / 4 * (m.cols / 8)
    requires forall g | 0 <= g < |groups| :: IsGroup(m, groups[g], g)
    requires Done(m, out[..], writes, UnitCells(m, pending))
    modifies out
    ensures Done(m, out[..], writes', UnitCells(m, pending - {u}))
  {
    var tiles := m.cols / 8;
    TakeUnit(m, pending, u);
    var group, tile := u / tiles, u % tiles;
    assert IsGroup(m, groups[group], group);
    writes' := RunBlock(m, groups[group], group * 4, 4, tile, out, writes, UnitCells(m, pending));
  }

  // The units in any order.
  method RunUnits<X, Q, V>(m: Product<X, Q, V>, groups: seq<seq<Q>>, out: array<V>, ghost writes: seq<nat>)
    returns (ghost writes': seq<nat>)
    requires m.cols >= 8 && m.cols % 8 == 0 && |groups| == |m.x| / 4
    requires forall g | 0 <= g < |groups| :: IsGroup(m, groups[g], g)
    requires Done(m, out[..], writes, {})
    modifies out
    ensures Done(m, out[..], writes', UnitCells(m, {}))
  {
    var tiles := m.cols / 8;
    var total := |groups| * tiles;
    var pending := Upto(total);
    writes' := writes;
    NoUnitYet(m, |groups|, tiles, total, pending);
    while pending != {}
      invariant forall u | u in pending :: 0 <= u < total
      invariant Done(m, out[..], writes', UnitCells(m, pending))
      decreases |pending|
    {
      SomeMember(pending);
      var u :| u in pending;
      writes' := RunUnit(m, groups, u, out, writes', pending);
      pending := pending - {u};
    }
    assert pending == {};
  }

  ghost predicate IsGroup<X, Q, V>(m: Product<X, Q, V>, group: seq<Q>, g: nat) {
    |group| == 4 && g * 4 + 4 <= |m.x| && forall r | 0 <= r < 4 :: group[r] == m.quant(m.x[g * 4 + r])
  }

  method QuantiseGroups<X, Q, V>(m: Product<X, Q, V>) returns (groups: seq<seq<Q>>)
    ensures |groups| == |m.x| / 4 && forall g | 0 <= g < |groups| :: IsGroup(m, groups[g], g)
  {
    groups := [];
    for g := 0 to |m.x| / 4
      invariant |groups| == g && forall h | 0 <= h < g :: IsGroup(m, groups[h], h)
    {
      var row := g * 4;
      groups := groups + [[m.quant(m.x[row]), m.quant(m.x[row + 1]), m.quant(m.x[row + 2]), m.quant(m.x[row + 3])]];
    }
  }

  // The tail rows, tile by tile in any order. A failing tile leaves its cells alone and the call fails.
  function TailCells<X, Q, V>(m: Product<X, Q, V>, pending: set<int>): set<nat>
    requires m.cols > 0
  {
    set p: nat | p < |m.x| * m.cols && (p / m.cols < |m.x| / 4 * 4 || (p % m.cols) / 8 !in pending)
  }

  lemma TakeTail<X, Q, V>(m: Product<X, Q, V>, pending: set<int>, k: nat)
    requires m.cols > 0 && k in pending
    ensures TailCells(m, pending) !! Block(m, |m.x| / 4 * 4, |m.x| % 4, k)
    ensures TailCells(m, pending - {k}) == TailCells(m, pending) + Block(m, |m.x| / 4 * 4, |m.x| % 4, k)
  {
    forall p: nat | p < |m.x| * m.cols ensures p / m.cols < |m.x| { RowOfCell(|m.x|, m.cols, p); }
  }

  lemma TailStarts<X, Q, V>(m: Product<X, Q, V>, pending: set<int>)
    requires m.cols >= 8 && m.cols % 8 == 0 && forall k :: k in pending <==> 0 <= k < m.cols / 8
    ensures TailCells(m, pending) == UnitCells(m, {})
  {
    forall p: nat ensures (p % m.cols) / 8 in pending {}
  }

  method RunTailTile<X, Q, V>(m: Product<X, Q, V>, tail: seq<Q>, k: nat, out: array<V>, ghost writes: seq<nat>,
                              ghost pending: set<int>)
    returns (ghost writes': seq<nat>)
    requires m.cols >= 8 && m.cols % 8 == 0 && |tail| == |m.x| % 4 && k in pending && k < m.cols / 8
    requires forall r | 0 <= r < |tail| :: tail[r] == m.quant(m.x[|m.x| / 4 * 4 + r])
    requires Done(m, out[..], writes, TailCells(m, pending))
    modifies out
    ensures Done(m, out[..], writes', TailCells(m, pending - {k}))
  {
    TakeTail(m, pending, k);
    writes' := RunBlock(m, tail, |m.x| / 4 * 4, |m.x| % 4, k, out, writes, TailCells(m, pending));
  }

  method RunTail<X, Q, V>(m: Product<X, Q, V>, tail: seq<Q>, out: array<V>, ghost writes: seq<nat>, tileOk: nat -> bool)
    returns (ok: bool, ghost writes': seq<nat>)
    requires m.cols >= 8 && m.cols % 8 == 0 && |tail| == |m.x| % 4
    requires forall r | 0 <= r < |tail| :: tail[r] == m.quant(m.x[|m.x| / 4 * 4 + r])
    requires Done(m, out[..], writes, UnitCells(m, {}))
    modifies out
    ensures ok <==> forall k: nat | k < m.cols / 8 :: tileOk(k)
    ensures ok ==> Complete(m, out[..], writes')
  {
    var tiles := m.cols / 8;
    var pending := Upto(tiles);
    ghost var left := pending;    // the pending tiles and the failed ones
    TailStarts(m, pending);
    writes', ok := writes, true;
    while pending != {}
      invariant pending <= left && forall k | k in left :: 0 <= k < tiles
      invariant forall k: nat | k < tiles && k !in pending :: k in left <==> !tileOk(k)
      invariant ok <==> left == pending
      invariant Done(m, out[..], writes', TailCells(m, left))
      decreases |pending|
    {
      SomeMember(pending);
      var k: nat :| k in pending;
      if tileOk(k) {
        writes' := RunTailTile(m, tail, k, out, writes', left);
        left := left - {k};
      } else {
        ok := false;
      }
      pending := pending - {k};
    }
    if ok { TailComplete(m, out[..], writes', left); }
  }

  lemma TailComplete<X, Q, V>(m: Product<X, Q, V>, out: seq<V>, writes: seq<nat>, pending: set<int>)
    requires m.cols > 0 && pending == {} && Done(m, out, writes, TailCells(m, pending))
    ensures Complete(m, out, writes)
  {
    var cells := TailCells(m, pending);
    forall p: nat | p < |out| ensures CellOk(m, out, writes, p, 1) {
      assert CellOk(m, out, writes, p, TimesWritten(cells, p));
    }
  }

  // The packed weight a call is given, and whether this processor has the kernel.
  datatype Packed = Packed(rows: int, cols: int, kernelAvailable: bool)

  const SuperBlock := 256

  predicate Admitted<X, Q, V>(m: Product<X, Q, V>, packed: Packed, inputCols: int) {
    && |m.x| >= 4 && packed.rows == m.cols && m.cols % 8 == 0
    && packed.cols == inputCols && inputCols >= 0 && inputCols % SuperBlock == 0 && packed.kernelAvailable
  }

  /** RunQ4KRepackedDenseGemm with its tail through RunQ4KRepackedDenseGemv. A batch without tail rows
      always succeeds once admitted. */
  method RepackedGemm<X, Q, V>(m: Product<X, Q, V>, packed: Packed, inputCols: int, out: array<V>,
                               tailQuantiser: bool, tileOk: nat -> bool)
    returns (ok: bool, ghost writes: seq<nat>)
    requires out.Length == |m.x| * m.cols && inputCols >= 0
    modifies out
    ensures ok <==>
      (Admitted(m, packed, inputCols) &&
       (|m.x| % 4 == 0 || (tailQuantiser && packed.cols > 0 && forall k: nat | k < m.cols / 8 :: tileOk(k))))
    ensures ok ==> Complete(m, out[..], writes)
    ensures ok ==> |m.x| >= 4 && packed.kernelAvailable && packed.rows == m.cols && packed.cols == inputCols
    ensures ok ==> m.cols % 8 == 0 && inputCols % 256 == 0
    ensures !ok && |m.x| >= 4 && |m.x| % 4 == 0 && packed == Packed(m.cols, inputCols, true) ==>
      m.cols % 8 != 0 || inputCols % 256 != 0
    ensures !Admitted(m, packed, inputCols) ==> out[..] == old(out[..])
  {
    writes, ok := seq(out.Length, _ => 0), false;
    if |m.x| < 4 || packed.rows != m.cols || m.cols % 8 != 0 || packed.cols != inputCols ||
       inputCols % SuperBlock != 0 || !packed.kernelAvailable
    {
      return;
    }
    var groups := QuantiseGroups(m);
    if m.cols > 0 { writes := RunUnits(m, groups, out, writes); }
    var tailRow := |m.x| / 4 * 4;
    if tailRow == |m.x| {
      ok := true;
      if m.cols > 0 {
        NoTail(m, out[..], writes);
      }
      return;
    }
    if !tailQuantiser { return; }
    var tail := seq(|m.x| - tailRow, r requires 0 <= r < |m.x| - tailRow => m.quant(m.x[tailRow + r]));
    if packed.cols <= 0 { return; }
    ok := true;
    if m.cols > 0 { ok, writes := RunTail(m, tail, out, writes, tileOk); }
  }

  lemma NoTail<X, Q, V>(m: Product<X, Q, V>, out: seq<V>, writes: seq<nat>)
    requires m.cols >= 8 && |m.x| % 4 == 0 && Done(m, out, writes, UnitCells(m, {}))
    ensures Complete(m, out, writes)
  {
    forall p: nat | p < |out| ensures CellOk(m, out, writes, p, 1) {
      assert CellOk(m, out, writes, p, TimesWritten(UnitCells(m, {}), p));
      RowOfCell(|m.x|, m.cols, p);
      assert p in UnitCells(m, {});
    }
  }
}
