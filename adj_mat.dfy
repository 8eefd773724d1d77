/**
 * The adjacency matrix record `struct bitwise_adj_mat` and its public
 * operations. Node `from` has an edge to node `to` when bit `from % 8` of
 * byte `to * nCols + from / 8` is set: the edge operations hand `from` to the
 * bit helpers as the column and `to` as the row. `Edges()` therefore holds
 * pairs (from, to).
 *
 * A buffer of length zero stands for the NULL `cells` pointer of an empty
 * matrix.
 */
module AdjMat {
  import opened Bits
  import opened Layout

  /**
   * The migration loop of `bam_resize`: for every byte column `i` and row `j`
   * of the `srcCols` by `srcRows` grid `src`, look up the cell in both grids
   * with `bam_access_cell` and copy the byte. Fails as soon as a cell of `src`
   * has no counterpart in `dst`, which happens exactly when `dst` is narrower
   * or has fewer rows.
   */
  method MigrateCells(src: array<bv8>, srcCols: nat, srcRows: nat,
                      dst: array<bv8>, dstCols: nat, dstRows: nat) returns (ok: bool)
    requires src != dst && src.Length == srcCols * srcRows
    requires CopiedUpTo(dst[..], dstCols, dstRows, src[..], srcCols, srcRows, 0, 0)
    modifies dst
    ensures ok <==> srcCols == 0 || srcRows == 0 || (srcCols <= dstCols && srcRows <= dstRows)
    ensures ok ==> IsMigration(dst[..], dstCols, dstRows, src[..], srcCols, srcRows)
  {
    var i := 0;
    while i < srcCols
      invariant 0 <= i <= srcCols
      invariant i > 0 ==> srcRows == 0 || (i <= dstCols && srcRows <= dstRows)
      invariant CopiedUpTo(dst[..], dstCols, dstRows, src[..], srcCols, srcRows, i, 0)
    {
      var j := 0;
      while j < srcRows
        invariant 0 <= j <= srcRows
        invariant j <= dstRows && (j > 0 ==> i < dstCols)
        invariant CopiedUpTo(dst[..], dstCols, dstRows, src[..], srcCols, srcRows, i, j)
      {
        var from := AccessCell(srcCols, srcRows, i, j);
        if from.None? {
          // unreachable: (i, j) ranges over the source grid
          assert false;
        }
        var to := AccessCell(dstCols, dstRows, i, j);
        if to.None? {
          return false;
        }
        CopyStep(dst[..], dstCols, dstRows, src[..], srcCols, srcRows, i, j);
        dst[to.value] := src[from.value];
        j := j + 1;
      }
      CopyNextColumn(dst[..], dstCols, dstRows, src[..], srcCols, srcRows, i);
      i := i + 1;
    }
    CopyDone(dst[..], dstCols, dstRows, src[..], srcCols, srcRows, i);
    ok := true;
  }

  class Bam {
    /** Number of rows, which is also the number of nodes. */
    var nRows: nat
    /** Bytes per row: `(nRows + 7) / 8`. */
    var nCols: nat
    /** Row-major grid of `nRows * nCols` bytes, eight edges per byte. */
    var cells: array<bv8>

    /** The documented layout, plus zero padding after the last node of every row. */
    ghost predicate Valid()
      reads this, cells
      ensures Valid() ==> 8 * nCols >= nRows && 8 * nCols < nRows + 8
      ensures Valid() ==> (cells.Length == 0 <==> nRows == 0)
    {
      WellFormed(cells[..], nRows, nCols) && PaddingClear(cells[..], nRows, nCols)
    }

    /** The directed edges the matrix holds, as pairs (from, to). */
    ghost function Edges(): set<(nat, nat)>
      reads this, cells
      requires Valid()
    {
      EdgeSet(cells[..], nRows, nCols)
    }

    /** `bam_new`: a matrix with `numNodes` nodes and no edges. */
    constructor (numNodes: nat)
      ensures Valid() && fresh(cells)
      ensures nRows == numNodes && nCols == ColsFor(numNodes) && Edges() == {}
    {
      nRows, nCols := 0, 0;
      cells := new bv8[0];
      new;
      var ok := Init(numNodes);
    }

    /**
     * `bam_init`: empty the record, then resize it to `numNodes` nodes when
     * `numNodes > 0`. With allocation succeeding it always succeeds.
     */
    method Init(numNodes: nat) returns (ok: bool)
      modifies this
      ensures ok
      ensures Valid() && fresh(cells)
      ensures nRows == numNodes && nCols == ColsFor(numNodes) && Edges() == {}
    {
      nCols, nRows := 0, 0;
      cells := new bv8[0];
      ok := true;
      if numNodes != 0 {
        ok := Resize(numNodes);
      }
    }

    /** `bam_destroy`: release the buffer and reset both dimensions to 0. */
    method Destroy() returns (ok: bool)
      modifies this
      ensures ok
      ensures Valid() && nRows == 0 && nCols == 0 && cells.Length == 0 && Edges() == {}
    {
      if cells.Length != 0 {
        cells := new bv8[0];
      }
      nCols, nRows := 0, 0;
      ok := true;
    }

    /**
     * `bam_resize`: allocate a zero-filled grid for `numNodes` nodes, copy every
     * old byte to the same (byte column, row) cell of the new grid, then adopt
     * it. Zero is rejected; so is a shrink, because the raw-cell check on the
     * new dimensions refuses the first old row beyond `numNodes`. A failed call
     * leaves the matrix as it was; a successful one keeps every edge.
     */
    method Resize(numNodes: nat) returns (ok: bool)
      requires Valid()
      modifies this
      ensures Valid()
      ensures ok <==> 0 < numNodes && old(nRows) <= numNodes
      ensures ok ==> nRows == numNodes && nCols == ColsFor(numNodes) && fresh(cells)
      ensures ok ==> IsMigration(cells[..], nCols, nRows, old(cells[..]), old(nCols), old(nRows))
      ensures ok ==> Edges() == old(Edges())
      ensures ok ==> forall from: nat, to: nat :: (from, to) in Edges() ==> from < old(nRows) && to < old(nRows)
      ensures !ok ==> nRows == old(nRows) && nCols == old(nCols) && cells == old(cells)
    {
      if numNodes == 0 {
        return false;
      }
      var numRows := numNodes;
      var numCols := ColsFor(numNodes);
      var newCells := new bv8[numCols * numRows](_ => 0);

      CopyStart(newCells[..], numCols, numRows, cells[..], nCols, nRows);
      if cells.Length != 0 {
        var copied := MigrateCells(cells, nCols, nRows, newCells, numCols, numRows);
        if !copied {
          return false;
        }
      } else {
        CopyDone(newCells[..], numCols, numRows, cells[..], nCols, nRows, 0);
      }
      MigrationPreservesEdges(cells[..], nRows, newCells[..], numRows);
      cells, nRows, nCols := newCells, numRows, numCols;
      ok := true;
    }

    /** `bam_size`: the number of nodes, which bounds every edge's endpoints. */
    function Size(): (n: nat)
      reads this, cells
      requires Valid()
      ensures n == nRows
      ensures forall from: nat, to: nat :: (from, to) in Edges() ==> from < n && to < n
    {
      nRows
    }

    /**
     * `bam_set_edge`: set (`value != 0`) or clear the bit of node column `col`
     * in row `row`. Fails, changing nothing, when a coordinate is not a node.
     */
    method SetEdge(col: nat, row: nat, value: nat) returns (ok: bool)
      requires Valid()
      modifies cells
      ensures Valid()
      ensures ok <==> col < nRows && row < nRows
      ensures ok ==> CellIndex(nCols, col / 8, row) < old(cells.Length) &&
                     cells[..] == WriteEdge(old(cells[..]), nCols, col, row, value != 0)
      ensures !ok ==> cells[..] == old(cells[..])
      ensures Edges() == if !ok then old(Edges())
                         else if value != 0 then old(Edges()) + {(col, row)}
                         else old(Edges()) - {(col, row)}
    {
      if col >= nRows {
        return false;
      }
      if row >= nRows {
        return false;
      }
      var index := CellIndex(nCols, col / 8, row);
      WriteEdgeEffect(cells[..], nRows, col, row, value != 0);
      if index >= nCols * nRows {
        // unreachable: see EdgeIndexInBounds
        assert false;
      }
      var v := if value > 1 then 1 else value;
      if v != 0 {
        cells[index] := SetBit(cells[index], col % 8);
      } else {
        cells[index] := ClearBit(cells[index], col % 8);
      }
      ok := true;
    }

    /** `bam_get_edge`: whether the bit of node column `col` in row `row` is set;
        false when a coordinate is not a node. */
    function GetEdge(col: nat, row: nat): (r: bool)
      reads this, cells
      requires Valid()
      ensures r <==> (col, row) in Edges()
    {
      if col >= nRows then false
      else if row >= nRows then false
      else
        var index := CellIndex(nCols, col / 8, row);
        if index >= nCols * nRows then false
        else TestBit(cells[index], col % 8)
    }

    /** `bam_add_edge`: add the edge `from -> to`. */
    method AddEdge(from: nat, to: nat) returns (ok: bool)
      requires Valid()
      modifies cells
      ensures Valid()
      ensures ok <==> from < nRows && to < nRows
      ensures Edges() == if ok then old(Edges()) + {(from, to)} else old(Edges())
      ensures ok ==> TestEdge(from, to)
      ensures !ok || (from, to) in old(Edges()) ==> cells[..] == old(cells[..])
    {
      if from >= nRows {
        return false;
      }
      if to >= nRows {
        return false;
      }
      ok := SetEdge(from, to, 1);
    }

    /** `bam_remove_edge`: remove the edge `from -> to`, which need not exist. */
    method RemoveEdge(from: nat, to: nat) returns (ok: bool)
      requires Valid()
      modifies cells
      ensures Valid()
      ensures ok <==> from < nRows && to < nRows
      ensures Edges() == if ok then old(Edges()) - {(from, to)} else old(Edges())
      ensures ok ==> !TestEdge(from, to)
      ensures !ok || (from, to) !in old(Edges()) ==> cells[..] == old(cells[..])
    {
      if from >= nRows {
        return false;
      }
      if to >= nRows {
        return false;
      }
      ok := SetEdge(from, to, 0);
    }

    /** `bam_test_edge`: whether the edge `from -> to` exists; false, not an
        error, when `from` or `to` is not a node. */
    function TestEdge(from: nat, to: nat): (r: bool)
      reads this, cells
      requires Valid()
      ensures r <==> (from, to) in Edges()
      ensures from >= nRows || to >= nRows ==> !r
    {
      if from >= nRows then false
      else if to >= nRows then false
      else GetEdge(from, to)
    }
  }
}
