/**
 * `bam_resize` computes the byte width of a row as `(num_nodes + 7) / 8` in
 * 32-bit unsigned arithmetic. For the seven largest node counts the addition
 * wraps and the width comes out as 0. On an empty matrix (no copy loop) and
 * with a `calloc(0, 1)` that returns a non-NULL pointer, the resize succeeds,
 * and no edge of the resized matrix can be stored: every edge operation falls
 * into its "illegal index" branch. On a non-empty matrix the resize fails
 * instead. The rest of the model uses `Layout.ColsFor`, the unbounded ceiling
 * of `n / 8`.
 */
module Findings {
  import opened Layout

  /** One more than the largest `unsigned int`. */
  const WordModulus: nat := 0x1_0000_0000

  /** The row width as `bam_resize` computes it, with the wrap-around of `num_nodes + 7`. */
  function ColsAsWritten(numNodes: nat): (c: nat)
    requires numNodes < WordModulus
    ensures numNodes + 7 < WordModulus ==> c == ColsFor(numNodes)
    ensures WordModulus <= numNodes + 7 ==> c == 0
  {
    ((numNodes + 7) % WordModulus) / 8
  }

  /**
   * With the wrapped width, every edge between two nodes of the matrix
   * addresses a byte at or beyond the end of the `n_cols * n_rows` buffer, so
   * `bam_set_edge` and `bam_get_edge` refuse it although both nodes exist.
   */
  lemma AsWrittenRejectsEveryEdge(numNodes: nat, from: nat, to: nat)
    requires WordModulus - 7 <= numNodes < WordModulus
    requires from < numNodes && to < numNodes
    ensures ColsAsWritten(numNodes) == 0
    ensures CellIndex(ColsAsWritten(numNodes), from / 8, to) >= ColsAsWritten(numNodes) * numNodes
  {
  }

  /**
   * The wrapped width only takes effect on an empty matrix: when the matrix
   * already has rows, the copy loop's first lookup in the new grid fails its
   * column test, and `bam_resize` fails with the old fields kept.
   */
  lemma AsWrittenNonEmptyResizeFails(numNodes: nat, oldRows: nat)
    requires WordModulus - 7 <= numNodes < WordModulus
    requires 0 < oldRows
    ensures 0 < ColsFor(oldRows) && ColsAsWritten(numNodes) < ColsFor(oldRows)
  {
  }

  /** A concrete input: 0xFFFFFFFF nodes give rows of zero bytes. */
  lemma AsWrittenLargestCount()
    ensures ColsAsWritten(0xFFFF_FFFF) == 0 && ColsFor(0xFFFF_FFFF) == 0x2000_0000
  {
  }
}
