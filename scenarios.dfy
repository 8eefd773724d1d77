/**
 * The scenarios of the library's test program and demo driver, restated as
 * methods whose assertions the verifier proves from the operations' contracts
 * alone. Each scenario is split into short phases whose `requires` and
 * `ensures` describe the matrix between steps. Expected graphs are stated as
 * `Edges()`; `TestEdge` agrees with it by its contract. `ShrinkScenario` and
 * `EmptyScenario` have no counterpart in the test program: they exercise the
 * shrink and empty-matrix cases of the contracts.
 */
module Scenarios {
  import opened Layout
  import opened AdjMat

  /** Basic usage: resize an empty matrix to 5 nodes, add three edges, remove them again. */
  method SimpleScenario()
  {
    var bam := new Bam(0);
    var ok := bam.Resize(5);
    assert ok && bam.nRows == 5 && bam.nCols == 1 && bam.Size() == 5;
    AddThree(bam);
    CheckThree(bam);
    RemoveThree(bam);
    ok := bam.Destroy();
    assert ok;
  }

  /** Adds 0->2, 1->0 and 3->1 to an empty 5-node matrix. */
  method AddThree(bam: Bam)
    requires bam.Valid() && bam.nRows == 5 && bam.Edges() == {}
    modifies bam.cells
    ensures bam.Valid() && bam.nRows == 5 && bam.Edges() == {(0, 2), (1, 0), (3, 1)}
  {
    var ok := bam.AddEdge(0, 2);
    assert ok && bam.TestEdge(0, 2);
    ok := bam.AddEdge(1, 0);
    assert ok;
    ok := bam.AddEdge(3, 1);
    assert ok;
  }

  /** The edges are directed: none of the reversed pairs is present. */
  method CheckThree(bam: Bam)
    requires bam.Valid() && bam.Edges() == {(0, 2), (1, 0), (3, 1)}
  {
    assert bam.TestEdge(1, 0) && bam.TestEdge(3, 1);
    assert !bam.TestEdge(2, 0) && !bam.TestEdge(0, 1) && !bam.TestEdge(1, 3);
  }

  /** Removes the three edges one by one. */
  method RemoveThree(bam: Bam)
    requires bam.Valid() && bam.nRows == 5 && bam.Edges() == {(0, 2), (1, 0), (3, 1)}
    modifies bam.cells
    ensures bam.Valid() && bam.Edges() == {}
  {
    var ok := bam.RemoveEdge(0, 2);
    assert ok && !bam.TestEdge(0, 2);
    assert bam.Edges() == {(1, 0), (3, 1)};
    ok := bam.RemoveEdge(1, 0);
    assert ok;
    ok := bam.RemoveEdge(3, 1);
    assert ok;
  }

  /** Growth: edges survive resizes to 9 and 27 nodes, and the new nodes can be linked. */
  method ResizeScenario()
  {
    var bam := new Bam(0);
    var ok := bam.Resize(5);
    assert ok && bam.nRows == 5;
    AddThree(bam);
    GrowToNine(bam);
    GrowToTwentySeven(bam);
    ok := bam.Destroy();
    assert ok;
  }

  /** Resizes the 5-node matrix to 9 nodes, a second byte per row, and links node 8 to node 7. */
  method GrowToNine(bam: Bam)
    requires bam.Valid() && bam.nRows == 5 && bam.Edges() == {(0, 2), (1, 0), (3, 1)}
    modifies bam, bam.cells
    ensures bam.Valid() && bam.nRows == 9 && fresh(bam.cells)
    ensures bam.Edges() == {(0, 2), (1, 0), (3, 1), (8, 7)}
  {
    var ok := bam.Resize(9);
    assert ok && bam.nRows == 9 && bam.nCols == 2 && bam.Size() == 9;
    assert bam.Edges() == {(0, 2), (1, 0), (3, 1)};
    ok := bam.AddEdge(8, 7);
    assert ok && bam.TestEdge(8, 7);
  }

  /** Resizes the 9-node matrix to 27 nodes and links node 26 to node 4. */
  method GrowToTwentySeven(bam: Bam)
    requires bam.Valid() && bam.nRows == 9 && bam.Edges() == {(0, 2), (1, 0), (3, 1), (8, 7)}
    modifies bam, bam.cells
    ensures bam.Valid() && bam.nRows == 27 && fresh(bam.cells)
    ensures bam.Edges() == {(0, 2), (1, 0), (3, 1), (8, 7), (26, 4)}
  {
    var ok := bam.Resize(27);
    assert ok && bam.nRows == 27 && bam.nCols == 4 && bam.Size() == 27;
    assert !bam.TestEdge(7, 8) && bam.TestEdge(8, 7);
    ok := bam.AddEdge(26, 4);
    assert ok && bam.TestEdge(26, 4);
  }

  /** Initialising a record to 0 nodes, then growing it to 4 nodes. */
  method InitScenario()
  {
    var bam := new Bam(0);
    assert bam.nRows == 0 && bam.Size() == 0;
    var ok := bam.Resize(4);
    assert ok && bam.nRows == 4 && bam.nCols == 1;
    ok := bam.Destroy();
    assert ok && bam.nRows == 0 && bam.nCols == 0;
  }

  /** A matrix created with 6 nodes has one byte per row and no edges. */
  method SizingScenario()
  {
    var bam := new Bam(6);
    assert bam.nRows == 6 && bam.nCols == 1 && bam.Size() == 6;
    assert forall i: nat, j: nat :: i < 6 && j < 6 ==> !bam.TestEdge(i, j);
  }

  /** Invalid arguments: resizing to 0 and touching node 2 of a 2-node matrix fail. */
  method InvalidScenario()
  {
    var bam := new Bam(2);
    var ok := bam.Resize(0);
    assert !ok && bam.nRows == 2;
    ok := bam.AddEdge(2, 0);
    assert !ok;
    ok := bam.AddEdge(0, 2);
    assert !ok;
    ok := bam.RemoveEdge(2, 0);
    assert !ok;
    ok := bam.RemoveEdge(0, 2);
    assert !ok;
    assert !bam.TestEdge(2, 0) && !bam.TestEdge(0, 2);
    assert bam.Edges() == {};
  }

  /** A shrinking resize fails and keeps the matrix and its edges. */
  method ShrinkScenario()
  {
    var bam := new Bam(9);
    var ok := bam.AddEdge(8, 7);
    ok := bam.Resize(4);
    assert !ok && bam.nRows == 9 && bam.TestEdge(8, 7);
  }

  /** A matrix with no nodes reports size 0 and no edge, and can be destroyed. */
  method EmptyScenario(from: nat, to: nat)
  {
    var bam := new Bam(0);
    assert bam.Size() == 0 && !bam.TestEdge(from, to);
    var ok := bam.Destroy();
    assert ok;
  }

  /** The demo driver: four nodes, edges 0->1, 0->2, 2->3, then 0->1 removed. */
  method DemoScenario()
  {
    var bam := new Bam(4);
    DemoEdges(bam);
    var ok := bam.RemoveEdge(0, 1);
    assert ok && !bam.TestEdge(0, 1);
    assert bam.Edges() == {(0, 2), (2, 3)};
    ok := bam.Destroy();
  }

  /** The edges the demo driver adds to its empty 4-node matrix. */
  method DemoEdges(bam: Bam)
    requires bam.Valid() && bam.nRows == 4 && bam.Edges() == {}
    modifies bam.cells
    ensures bam.Valid() && bam.nRows == 4 && bam.Edges() == {(0, 1), (0, 2), (2, 3)}
  {
    var ok := bam.AddEdge(0, 1);
    assert ok;
    ok := bam.AddEdge(0, 2);
    assert ok;
    ok := bam.AddEdge(2, 3);
    assert ok && !bam.TestEdge(1, 0);
  }
}
