/**
 * Layout of the packed edge grid.
 *
 * The buffer is a row-major grid of `nRows` rows by `nCols` bytes. Two
 * addressing modes share it:
 *  - raw-cell addressing, `row * nCols + col` with `col` a BYTE column, used
 *    only to migrate whole bytes while resizing;
 *  - edge-bit addressing, byte `row * nCols + col / 8` and bit `col % 8`, with
 *    `col` a NODE number, used by every edge operation.
 * The functions on `seq<bv8>` below give the meaning of a buffer: which edges
 * it holds, and what a correct migration into a larger grid looks like.
 */
module Layout {
  import opened Bits

  datatype Option<T> = None | Some(value: T)

  /** Bytes per row for `n` nodes: `(n + 7) / 8`, the ceiling of `n / 8`. */
  function ColsFor(n: nat): (c: nat)
    ensures 8 * c >= n && 8 * c < n + 8
  {
    (n + 7) / 8
  }

  /** Raw-cell address of byte column `col` in row `row`. */
  function CellIndex(nCols: nat, col: nat, row: nat): nat
  {
    row * nCols + col
  }

  /** Every cell of an `nCols` by `nRows` grid lies inside its `nCols * nRows` bytes. */
  lemma CellIndexInBounds(nCols: nat, nRows: nat, col: nat, row: nat)
    requires col < nCols && row < nRows
    ensures CellIndex(nCols, col, row) < nCols * nRows
  {
    assert (nRows - row - 1) * nCols >= 0;
    assert nRows * nCols == row * nCols + nCols + (nRows - row - 1) * nCols;
  }

  /** Distinct cells of a grid have distinct raw-cell addresses. */
  lemma CellIndexInjective(nCols: nat, col1: nat, row1: nat, col2: nat, row2: nat)
    requires col1 < nCols && col2 < nCols
    requires CellIndex(nCols, col1, row1) == CellIndex(nCols, col2, row2)
    ensures col1 == col2 && row1 == row2
  {
    if row1 < row2 {
      RowStart(nCols, row1, row2);
    } else if row2 < row1 {
      RowStart(nCols, row2, row1);
    }
  }

  /** Row `row2` starts at least `nCols` bytes after row `row1` starts. */
  lemma {:induction false} RowStart(nCols: nat, row1: nat, row2: nat)
    requires row1 < row2
    ensures row1 * nCols + nCols <= row2 * nCols
  {
    if row1 + 1 < row2 {
      RowStart(nCols, row1, row2 - 1);
    }
  }

  /**
   * `bam_access_cell`: the raw-cell address of (`col`, `row`) in a grid of
   * `nCols` by `nRows` bytes, or None when a coordinate is out of range. The
   * final "illegal index" test never fails: an in-range cell is always inside
   * the grid.
   */
  function AccessCell(nCols: nat, nRows: nat, col: nat, row: nat): (r: Option<nat>)
    ensures r.Some? <==> col < nCols && row < nRows
    ensures r.Some? ==> r.value == CellIndex(nCols, col, row) && r.value < nCols * nRows
  {
    if col >= nCols then None
    else if row >= nRows then None
    else
      var index := CellIndex(nCols, col, row);
      CellIndexInBounds(nCols, nRows, col, row);
      if index >= nCols * nRows then None
      else Some(index)
  }

  /**
   * With `nCols == ColsFor(n)`, every bit position of a row (the node columns
   * `col < n` and the padding bits after them) addresses a byte inside the
   * buffer, so the "illegal index" branches of the edge operations are dead.
   */
  lemma EdgeIndexInBounds(n: nat, col: nat, row: nat)
    requires col < 8 * ColsFor(n) && row < n
    ensures CellIndex(ColsFor(n), col / 8, row) < ColsFor(n) * n
  {
    CellIndexInBounds(ColsFor(n), n, col / 8, row);
  }

  /** Two bit positions of a grid that share byte and bit are the same position. */
  lemma EdgeAddressInjective(nCols: nat, col1: nat, row1: nat, col2: nat, row2: nat)
    requires col1 < 8 * nCols && col2 < 8 * nCols
    requires CellIndex(nCols, col1 / 8, row1) == CellIndex(nCols, col2 / 8, row2)
    requires col1 % 8 == col2 % 8
    ensures col1 == col2 && row1 == row2
  {
    CellIndexInjective(nCols, col1 / 8, row1, col2 / 8, row2);
  }

  /** The bit at node column `col`, row `row` of `cells` (false outside the buffer). */
  predicate EdgeBit(cells: seq<bv8>, nCols: nat, col: nat, row: nat)
  {
    var index := CellIndex(nCols, col / 8, row);
    index < |cells| && TestBit(cells[index], col % 8)
  }

  /** Shape of a buffer for `nRows` nodes: `nCols` is the ceiling of `nRows / 8`
      and the buffer holds exactly `nRows * nCols` bytes. */
  predicate WellFormed(cells: seq<bv8>, nRows: nat, nCols: nat)
  {
    nCols == ColsFor(nRows) && |cells| == nRows * nCols
  }

  /** Padding bits (node columns `nRows` up to `8 * nCols` in each row's last byte) are zero. */
  ghost predicate PaddingClear(cells: seq<bv8>, nRows: nat, nCols: nat)
  {
    forall col: nat, row: nat :: nRows <= col < 8 * nCols && row < nRows ==> !EdgeBit(cells, nCols, col, row)
  }

  /** The edges a buffer represents, as pairs (node column, row). */
  ghost function EdgeSet(cells: seq<bv8>, nRows: nat, nCols: nat): (es: set<(nat, nat)>)
    ensures forall e :: e in es ==> e.0 < nRows && e.1 < nRows
  {
    set col: nat, row: nat | col < nRows && row < nRows && EdgeBit(cells, nCols, col, row) :: (col, row)
  }

  /** The buffer after setting (`on`) or clearing the bit of (`col`, `row`). */
  function WriteEdge(cells: seq<bv8>, nCols: nat, col: nat, row: nat, on: bool): (r: seq<bv8>)
    requires CellIndex(nCols, col / 8, row) < |cells|
    ensures |r| == |cells| && EdgeBit(r, nCols, col, row) == on
    ensures forall k :: 0 <= k < |cells| && k != CellIndex(nCols, col / 8, row) ==> r[k] == cells[k]
  {
    var index := CellIndex(nCols, col / 8, row);
    cells[index := if on then SetBit(cells[index], col % 8) else ClearBit(cells[index], col % 8)]
  }

  /** Writing one edge bit gives that bit the written value and changes no other bit of the grid. */
  lemma WriteEdgeIsolation(cells: seq<bv8>, n: nat, col: nat, row: nat, on: bool)
    requires WellFormed(cells, n, ColsFor(n))
    requires col < n && row < n
    ensures CellIndex(ColsFor(n), col / 8, row) < |cells|
    ensures |WriteEdge(cells, ColsFor(n), col, row, on)| == |cells|
    ensures forall c: nat, r: nat :: c < 8 * ColsFor(n) && r < n ==>
              EdgeBit(WriteEdge(cells, ColsFor(n), col, row, on), ColsFor(n), c, r) ==
              if c == col && r == row then on else EdgeBit(cells, ColsFor(n), c, r)
  {
    var nCols := ColsFor(n);
    EdgeIndexInBounds(n, col, row);
    var w := WriteEdge(cells, nCols, col, row, on);
    forall c: nat, r: nat | c < 8 * nCols && r < n
      ensures EdgeBit(w, nCols, c, r) == if c == col && r == row then on else EdgeBit(cells, nCols, c, r)
    {
      EdgeIndexInBounds(n, c, r);
      if CellIndex(nCols, c / 8, r) == CellIndex(nCols, col / 8, row) {
        if c % 8 == col % 8 {
          EdgeAddressInjective(nCols, c, r, col, row);
        } else if on {
          SetBitKeepsOthers(cells[CellIndex(nCols, col / 8, row)], col % 8, c % 8);
        } else {
          ClearBitKeepsOthers(cells[CellIndex(nCols, col / 8, row)], col % 8, c % 8);
        }
      }
    }
  }

  /**
   * Effect of one edge write on the represented graph: setting adds exactly
   * (`col`, `row`), clearing removes exactly it, the shape and the zero padding
   * are kept.
   */
  lemma WriteEdgeEffect(cells: seq<bv8>, n: nat, col: nat, row: nat, on: bool)
    requires WellFormed(cells, n, ColsFor(n)) && PaddingClear(cells, n, ColsFor(n))
    requires col < n && row < n
    ensures CellIndex(ColsFor(n), col / 8, row) < |cells|
    ensures WellFormed(WriteEdge(cells, ColsFor(n), col, row, on), n, ColsFor(n))
    ensures PaddingClear(WriteEdge(cells, ColsFor(n), col, row, on), n, ColsFor(n))
    ensures EdgeSet(WriteEdge(cells, ColsFor(n), col, row, on), n, ColsFor(n)) ==
            if on then EdgeSet(cells, n, ColsFor(n)) + {(col, row)}
            else EdgeSet(cells, n, ColsFor(n)) - {(col, row)}
  {
    WriteEdgeIsolation(cells, n, col, row, on);
  }

  /** The byte that cell (`col`, `row`) of a grid receives when the `srcCols` by
      `srcRows` grid `src` is migrated into it: the old byte, or zero if none. */
  ghost function MigratedCell(src: seq<bv8>, srcCols: nat, srcRows: nat, col: nat, row: nat): bv8
    requires |src| == srcCols * srcRows
  {
    if col < srcCols && row < srcRows then
      CellIndexInBounds(srcCols, srcRows, col, row);
      src[CellIndex(srcCols, col, row)]
    else 0
  }

  /** `dst` is the `dstCols` by `dstRows` grid that holds every byte of `src` at
      the same (byte column, row) cell and zero everywhere else. */
  ghost predicate IsMigration(dst: seq<bv8>, dstCols: nat, dstRows: nat, src: seq<bv8>, srcCols: nat, srcRows: nat)
    requires |src| == srcCols * srcRows
  {
    |dst| == dstCols * dstRows &&
    forall col: nat, row: nat :: col < dstCols && row < dstRows ==>
      (CellIndexInBounds(dstCols, dstRows, col, row);
       dst[CellIndex(dstCols, col, row)] == MigratedCell(src, srcCols, srcRows, col, row))
  }

  /**
   * The state of the migration loop: the cells (`c`, `r`) of `dst` already
   * visited (byte columns before `i`, and rows before `j` of column `i`) hold
   * their migrated byte; all other cells still hold the zero `calloc` gave them.
   */
  ghost predicate CopiedUpTo(dst: seq<bv8>, dstCols: nat, dstRows: nat,
                             src: seq<bv8>, srcCols: nat, srcRows: nat, i: nat, j: nat)
    requires |src| == srcCols * srcRows
  {
    |dst| == dstCols * dstRows &&
    forall c: nat, r: nat :: c < dstCols && r < dstRows ==>
      (CellIndexInBounds(dstCols, dstRows, c, r);
       dst[CellIndex(dstCols, c, r)] ==
         if c < i || (c == i && r < j) then MigratedCell(src, srcCols, srcRows, c, r) else 0)
  }

  /** A zero-filled grid is the state before the first copy. */
  lemma CopyStart(dst: seq<bv8>, dstCols: nat, dstRows: nat, src: seq<bv8>, srcCols: nat, srcRows: nat)
    requires |src| == srcCols * srcRows
    requires |dst| == dstCols * dstRows
    requires forall k :: 0 <= k < |dst| ==> dst[k] == 0
    ensures CopiedUpTo(dst, dstCols, dstRows, src, srcCols, srcRows, 0, 0)
  {
    forall c: nat, r: nat | c < dstCols && r < dstRows
      ensures CellIndex(dstCols, c, r) < |dst| && dst[CellIndex(dstCols, c, r)] == 0
    {
      CellIndexInBounds(dstCols, dstRows, c, r);
    }
  }

  /** Copying the byte of cell (`i`, `j`) to the same cell of `dst` visits that cell. */
  lemma CopyStep(dst: seq<bv8>, dstCols: nat, dstRows: nat,
                 src: seq<bv8>, srcCols: nat, srcRows: nat, i: nat, j: nat)
    requires |src| == srcCols * srcRows
    requires CopiedUpTo(dst, dstCols, dstRows, src, srcCols, srcRows, i, j)
    requires i < srcCols && j < srcRows && i < dstCols && j < dstRows
    ensures CellIndex(dstCols, i, j) < |dst| && CellIndex(srcCols, i, j) < |src|
    ensures CopiedUpTo(dst[CellIndex(dstCols, i, j) := src[CellIndex(srcCols, i, j)]],
                       dstCols, dstRows, src, srcCols, srcRows, i, j + 1)
  {
    CellIndexInBounds(dstCols, dstRows, i, j);
    CellIndexInBounds(srcCols, srcRows, i, j);
    var dst' := dst[CellIndex(dstCols, i, j) := src[CellIndex(srcCols, i, j)]];
    forall c: nat, r: nat | c < dstCols && r < dstRows
      ensures CellIndex(dstCols, c, r) < |dst'| &&
              dst'[CellIndex(dstCols, c, r)] ==
                if c < i || (c == i && r < j + 1) then MigratedCell(src, srcCols, srcRows, c, r) else 0
    {
      CellIndexInBounds(dstCols, dstRows, c, r);
      if CellIndex(dstCols, c, r) == CellIndex(dstCols, i, j) {
        CellIndexInjective(dstCols, c, r, i, j);
      }
    }
  }

  /** Once every row of column `i` is visited, column `i + 1` starts. */
  lemma CopyNextColumn(dst: seq<bv8>, dstCols: nat, dstRows: nat,
                       src: seq<bv8>, srcCols: nat, srcRows: nat, i: nat)
    requires |src| == srcCols * srcRows
    requires CopiedUpTo(dst, dstCols, dstRows, src, srcCols, srcRows, i, srcRows)
    ensures CopiedUpTo(dst, dstCols, dstRows, src, srcCols, srcRows, i + 1, 0)
  {
    forall c: nat, r: nat | c < dstCols && r < dstRows
      ensures CellIndex(dstCols, c, r) < |dst| &&
              dst[CellIndex(dstCols, c, r)] ==
                if c < i + 1 then MigratedCell(src, srcCols, srcRows, c, r) else 0
    {
      CellIndexInBounds(dstCols, dstRows, c, r);
    }
  }

  /** Once every byte column of `src` is visited, `dst` is the migration of `src`. */
  lemma CopyDone(dst: seq<bv8>, dstCols: nat, dstRows: nat,
                 src: seq<bv8>, srcCols: nat, srcRows: nat, i: nat)
    requires |src| == srcCols * srcRows
    requires srcCols <= i
    requires CopiedUpTo(dst, dstCols, dstRows, src, srcCols, srcRows, i, 0)
    ensures IsMigration(dst, dstCols, dstRows, src, srcCols, srcRows)
  {
    forall c: nat, r: nat | c < dstCols && r < dstRows
      ensures CellIndex(dstCols, c, r) < |dst| &&
              dst[CellIndex(dstCols, c, r)] == MigratedCell(src, srcCols, srcRows, c, r)
    {
      CellIndexInBounds(dstCols, dstRows, c, r);
    }
  }

  /**
   * Growth preserves the graph. Migrating a well-formed buffer for `n` nodes
   * (zero padding) into the grid for `m >= n` nodes gives a well-formed buffer
   * with zero padding whose edge bits are the old ones, and zero for every
   * position with a coordinate `>= n`.
   */
  lemma MigrationPreservesEdges(src: seq<bv8>, n: nat, dst: seq<bv8>, m: nat)
    requires WellFormed(src, n, ColsFor(n)) && PaddingClear(src, n, ColsFor(n))
    requires n <= m
    requires IsMigration(dst, ColsFor(m), m, src, ColsFor(n), n)
    ensures WellFormed(dst, m, ColsFor(m)) && PaddingClear(dst, m, ColsFor(m))
    ensures forall col: nat, row: nat :: col < 8 * ColsFor(m) && row < m ==>
              EdgeBit(dst, ColsFor(m), col, row) == (col < n && row < n && EdgeBit(src, ColsFor(n), col, row))
    ensures EdgeSet(dst, m, ColsFor(m)) == EdgeSet(src, n, ColsFor(n))
  {
    var oldCols, newCols := ColsFor(n), ColsFor(m);
    forall col: nat, row: nat | col < 8 * newCols && row < m
      ensures EdgeBit(dst, newCols, col, row) == (col < n && row < n && EdgeBit(src, oldCols, col, row))
    {
      EdgeIndexInBounds(m, col, row);
      CellIndexInBounds(newCols, m, col / 8, row);
      assert dst[CellIndex(newCols, col / 8, row)] == MigratedCell(src, oldCols, n, col / 8, row);
      if col / 8 < oldCols && row < n {
        EdgeIndexInBounds(n, col, row);
        assert EdgeBit(dst, newCols, col, row) == EdgeBit(src, oldCols, col, row);
      } else {
        assert MigratedCell(src, oldCols, n, col / 8, row) == 0;
        assert !EdgeBit(dst, newCols, col, row);
      }
    }
  }

  /**
   * The edge set loses nothing: two buffers laid out for the same `n` nodes,
   * both with clear padding, that hold the same edges are the same buffer.
   */
  lemma EdgesDetermineBuffer(a: seq<bv8>, b: seq<bv8>, n: nat)
    requires WellFormed(a, n, ColsFor(n)) && PaddingClear(a, n, ColsFor(n))
    requires WellFormed(b, n, ColsFor(n)) && PaddingClear(b, n, ColsFor(n))
    requires EdgeSet(a, n, ColsFor(n)) == EdgeSet(b, n, ColsFor(n))
    ensures a == b
  {
    var nCols := ColsFor(n);
    forall k | 0 <= k < |a|
      ensures a[k] == b[k]
    {
      var row, c := k / nCols, k % nCols;
      assert CellIndex(nCols, c, row) == k;
      if row >= n {
        if row > n {
          RowStart(nCols, n, row);
        }
        assert false;
      }
      forall j: nat | j < 8
        ensures TestBit(a[k], j) == TestBit(b[k], j)
      {
        var col := 8 * c + j;
        assert col / 8 == c && col % 8 == j;
        assert EdgeBit(a, nCols, col, row) == TestBit(a[k], j);
        assert EdgeBit(b, nCols, col, row) == TestBit(b[k], j);
        if col < n {
          assert EdgeBit(a, nCols, col, row) <==> (col, row) in EdgeSet(a, n, nCols);
          assert EdgeBit(b, nCols, col, row) <==> (col, row) in EdgeSet(b, n, nCols);
        }
      }
      BitsDetermineByte(a[k], b[k]);
    }
  }
}
