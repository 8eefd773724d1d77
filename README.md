# Bitwise adjacency matrix — a verified Dafny model

The C library `bitwise_adj_mat` stores a dense directed graph of `n_rows` nodes
as a packed bit matrix. Each row holds `n_cols = (n_rows + 7) / 8` bytes, and the
grid is stored row-major in one `uint8_t` buffer `cells`. The edge `from -> to`
is bit `from % 8` (LSB first) of byte `cells[to * n_cols + from / 8]`: the public
edge operations pass `from` to the internal bit helpers as the column and `to`
as the row. The model keeps that mapping as written. The library can create,
initialise, destroy and resize a matrix (resizing copies the old bytes into a
fresh zero-filled grid), report its size, and add, remove and test edges.

The model has five modules:

- `Bits` (`bits.dfy`): the masks `1 << k`, and the set, clear and test of one bit
  of a byte.
- `Layout` (`layout.dfy`): both addressing modes over a `seq<bv8>` grid.
  - Raw-cell addressing `row * n_cols + col` is `bam_access_cell`, used only to
    migrate bytes.
  - Edge-bit addressing `row * n_cols + col / 8`, bit `col % 8`, is used by the
    edge operations.
  - It also defines what a buffer means: its shape (`WellFormed`), the zero
    padding bits after the last node (`PaddingClear`), and the set of edges it
    holds (`EdgeSet`).
  - It specifies one edge write and a whole-grid migration.
- `AdjMat` (`adj_mat.dfy`): `struct bitwise_adj_mat` as the class `Bam`.
  - Its fields `nRows`, `nCols` and `cells: array<bv8>` are updated in place.
  - `Valid()` is the layout invariant documented in the header plus the padding
    invariant the code relies on. `Edges()` is the abstract graph.
  - Each public operation is a method or function whose contract ties the new
    state to the old one.
  - The nested copy loop of `bam_resize` is the method `MigrateCells`.
- `Scenarios` (`scenarios.dfy`): the library's test program and demo driver,
  restated as methods whose assertions follow from the contracts.
  `ShrinkScenario` and `EmptyScenario` are additions with no counterpart in the
  test program: they exercise a failing shrink and a 0-node matrix.
- `Findings` (`findings.dfy`): the 32-bit wrap-around in the row-width
  computation of `bam_resize` (see "## Findings").

A `cells` buffer of length zero stands for the NULL pointer of an empty matrix.
Node numbers and sizes are unbounded `nat`s. Bytes are `bv8`.

## Model

| member | source | states |
|---|---|---|
| Bits.SetBit | bitwise_adj_mat.c:86-90 | after OR-ing in the mask `1 << k`, bit `k` is set, and the byte is unchanged exactly when the bit was already set |
| Bits.ClearBit | bitwise_adj_mat.c:91-95 | after AND-ing with `0xFF ^ (1 << k)`, bit `k` is clear, and the byte is unchanged exactly when the bit was already clear |
| Bits.SetBitKeepsOthers | bitwise_adj_mat.c:86-90 | setting bit `k` leaves every other bit `j` of the byte as it was |
| Bits.ClearBitKeepsOthers | bitwise_adj_mat.c:91-95 | clearing bit `k` leaves every other bit `j` of the byte as it was |
| Bits.BitsDetermineByte | bitwise_adj_mat.h:22-23 | a cell is a collection of 8 edges: two bytes with the same 8 bits are the same byte |
| Layout.ColsFor | bitwise_adj_mat.c:262 | `(n + 7) / 8` is the ceiling of `n / 8`: `8 * c >= n` and `8 * c < n + 8` |
| Layout.CellIndexInBounds | bitwise_adj_mat.c:31-36 | a cell with `col < n_cols` and `row < n_rows` has raw address `row * n_cols + col < n_cols * n_rows` |
| Layout.CellIndexInjective | bitwise_adj_mat.h:22-29 | row-major addressing is one-to-one: two cells with the same address and columns below `n_cols` are the same cell |
| Layout.RowStart | bitwise_adj_mat.h:22-29 | row `r2 > r1` starts at least `n_cols` bytes after row `r1` starts |
| Layout.AccessCell | bitwise_adj_mat.c:10-39 | `bam_access_cell` returns an address exactly when `col < n_cols` and `row < n_rows`; the address is `row * n_cols + col` and lies inside the grid, so the "illegal index" branch is dead |
| Layout.EdgeIndexInBounds | bitwise_adj_mat.c:66-79 | with `n_cols == (n + 7) / 8`, every bit position of a row, including padding, addresses a byte below `n_cols * n_rows`; the "illegal index" branches of set and get are dead |
| Layout.EdgeAddressInjective | bitwise_adj_mat.h:26-27 | two bit positions with the same byte index and the same `col % 8` are the same (node column, row) |
| Layout.WriteEdge | bitwise_adj_mat.c:86-96 | the in-place `\|=` / `&=` as a buffer update: the length is kept, the written edge bit reads `on`, and every byte other than `cells[row * n_cols + col / 8]` is unchanged |
| Layout.EdgeSet | bitwise_adj_mat.h:12-15 | every edge a buffer holds has both endpoints below `n_rows` |
| Layout.EdgesDetermineBuffer | bitwise_adj_mat.h:22-29 | the edge set is a faithful abstraction of the buffer: two buffers laid out for the same `n_rows` with clear padding that hold the same edges are byte-for-byte equal |
| Layout.WriteEdgeIsolation | bitwise_adj_mat.c:86-96 | writing the bit of (`col`, `row`) gives it the written value and leaves the bit of every other position in the grid unchanged |
| Layout.WriteEdgeEffect | bitwise_adj_mat.c:86-96 | a write keeps the shape and the zero padding, and turns the edge set into the old set plus or minus the written pair |
| Layout.CopyStart | bitwise_adj_mat.c:265 | the zero-filled `calloc` grid is the state before the first copy of the migration loop |
| Layout.CopyStep | bitwise_adj_mat.c:274-292 | copying the byte of cell (`i`, `j`) to the same cell of the new grid advances the loop state by one row |
| Layout.CopyNextColumn | bitwise_adj_mat.c:273-274 | after every row of byte column `i` is copied, byte column `i + 1` starts |
| Layout.CopyDone | bitwise_adj_mat.c:273-293 | after every byte column is copied, the new grid holds each old byte at the same (byte column, row) and zero elsewhere |
| Layout.MigrationPreservesEdges | bitwise_adj_mat.c:271-302 | migrating a valid grid for `n` nodes into a grid for `m >= n` nodes gives a valid grid with zero padding; every old edge bit keeps its value, every bit involving a node `>= n` reads 0, and the edge set is unchanged |
| AdjMat.Bam.Valid | bitwise_adj_mat.h:17-29 | the struct invariant: `n_cols == (n_rows + 7) / 8` (so `8 * n_cols` is the first multiple of 8 at or above `n_rows`), the buffer holds `n_rows * n_cols` bytes and is empty (NULL) exactly when `n_rows == 0`, and the padding bits after the last node of every row are zero |
| AdjMat.MigrateCells | bitwise_adj_mat.c:271-293 | the nested copy loop succeeds exactly when the old grid is empty or fits in the new one (byte columns and rows); on success the new grid is the migration of the old |
| AdjMat.Bam.constructor | bitwise_adj_mat.c:156-171 | `bam_new(n)` gives a valid matrix with `n_rows == n`, `n_cols == (n + 7) / 8` and no edges, including for `n == 0` |
| AdjMat.Bam.Init | bitwise_adj_mat.c:179-199 | `bam_init(n)` succeeds and leaves a valid matrix with `n_rows == n`, `n_cols == (n + 7) / 8` and no edges; it resizes only when `n > 0` |
| AdjMat.Bam.Destroy | bitwise_adj_mat.c:207-228 | `bam_destroy` succeeds and resets the matrix to 0 rows, 0 columns, no buffer and no edges |
| AdjMat.Bam.Resize | bitwise_adj_mat.c:237-305 | succeeds exactly when `0 < num_nodes` and `n_rows <= num_nodes`. On success: the new dimensions, a fresh migrated buffer, the same edge set, and no edge at a node `>=` the old `n_rows`. On failure: `n_rows`, `n_cols` and `cells` unchanged |
| AdjMat.Bam.Size | bitwise_adj_mat.c:312-319 | `bam_size` is `n_rows`, which bounds both endpoints of every edge |
| AdjMat.Bam.SetEdge | bitwise_adj_mat.c:47-99 | succeeds exactly when `col` and `row` are both below `n_rows`. On success the buffer is the old one with that single bit written (any nonzero `value` sets it). On failure nothing changes. The edge set gains or loses exactly the pair (`col`, `row`) |
| AdjMat.Bam.GetEdge | bitwise_adj_mat.c:106-148 | true exactly when (`col`, `row`) is an edge of the matrix; false for out-of-range coordinates |
| AdjMat.Bam.AddEdge | bitwise_adj_mat.c:328-354 | succeeds exactly when both nodes exist; the edge set gains `from -> to`, which `TestEdge` then reports. Adding an existing edge, or a failed call, leaves the buffer unchanged |
| AdjMat.Bam.RemoveEdge | bitwise_adj_mat.c:356-390 | succeeds exactly when both nodes exist, whether or not the edge exists; the edge set loses `from -> to`, which `TestEdge` then denies. Removing an absent edge, or a failed call, leaves the buffer unchanged |
| AdjMat.Bam.TestEdge | bitwise_adj_mat.c:392-419 | true exactly when `from -> to` is an edge; an out-of-range `from` or `to` gives false, not an error |
| Scenarios.AddThree | test_bitwise_adj_mat.c:38-44 | adding 0->2, 1->0 and 3->1 to an empty 5-node matrix yields exactly those three edges |
| Scenarios.RemoveThree | test_bitwise_adj_mat.c:51-65 | removing them one by one makes `TestEdge` false for each removed edge and ends with no edges |
| Scenarios.GrowToNine | test_bitwise_adj_mat.c:124-140 | resizing to 9 nodes gives 2 bytes per row and keeps the three edges; the new node 8 can be linked to node 7 |
| Scenarios.GrowToTwentySeven | test_bitwise_adj_mat.c:143-161 | resizing to 27 nodes gives 4 bytes per row, keeps all edges (7->8 stays absent), and 26->4 can be added |
| Scenarios.DemoEdges | example.c:16-30 | the demo's edges 0->1, 0->2 and 2->3 are exactly the edges of its 4-node matrix, and 1->0 is absent |
| Findings.ColsAsWritten | bitwise_adj_mat.c:262 | the row width computed in 32-bit arithmetic equals `(n + 7) / 8` when `n + 7` fits in 32 bits, and is 0 when it wraps |
| Findings.AsWrittenRejectsEveryEdge | bitwise_adj_mat.c:67-69 | for the seven largest node counts the wrapped width is 0, and every edge between existing nodes falls into the "illegal index" branch |
| Findings.AsWrittenNonEmptyResizeFails | bitwise_adj_mat.c:284-288 | for the wrapped node counts and a matrix with at least one row, the wrapped width is below the old width, so the copy loop's lookup in the new grid fails and the resize fails |
| Findings.AsWrittenLargestCount | bitwise_adj_mat.c:262 | 0xFFFFFFFF nodes give a wrapped width of 0 where the ceiling is 0x20000000 |

## Left out

- Console diagnostics: the `puts`/`printf` calls on every error path have no effect on state.
- NULL handles: every operation's `bam == NULL` check returning 0 is left out, because Dafny references are non-null.
- `bam_access_cell`'s NULL `cells` check is left out: it is reached only from `bam_resize`, which calls it on the old buffer only when that buffer is non-NULL, and on the freshly allocated one.
- Allocation failure: `calloc` in `bam_new` and `bam_resize` is taken to succeed. So `AdjMat.Bam.constructor` and `AdjMat.Bam.Init` always succeed, and `Resize` fails only for 0 or a shrink.
- Memory ownership: the model has no `free` calls. It also leaves out `bam_destroy`'s `free_bam` flag, `bam_new`'s heap allocation of the record, and the new buffer leaked when a shrinking resize fails midway.
- AdjMat.Bam.constructor: `bam_new` returning NULL when `bam_init` fails cannot happen once allocation succeeds, so it is not modelled.
- Fixed-width arithmetic: `unsigned int` wrap-around in `num_nodes + 7`, `num_cols * num_rows` and the index products is not modelled in the class, whose sizes are unbounded. The wrap of `num_nodes + 7` is shown separately under "## Findings".
- Bytes are modelled as `bv8`, and `SetEdge`'s `value` as a `nat`. The C code flattens any nonzero `value` to 1, and the model does the same.

## Findings

| source | as written | input that shows it | evidently intended | confidence | as-written member | corrected member |
|---|---|---|---|---|---|---|
| bitwise_adj_mat.c:262 | `num_cols = (num_nodes + 7) / 8` in 32-bit `unsigned int`, so the addition wraps for `num_nodes >= 0xFFFFFFF9` and the width becomes 0. When the matrix is empty (the copy loop is skipped) and `calloc(0, 1)` returns non-NULL, the resize succeeds and every later edge operation on existing nodes hits "illegal index". On a non-empty matrix the first lookup in the new grid fails its column test instead, and the resize fails with the old fields kept | `bam_new(0xFFFFFFFF)`, on a platform where `calloc(0, 1)` returns non-NULL, gives `n_cols == 0` instead of `0x20000000` | `n_cols` is the ceiling of `num_nodes / 8`, so every node column addresses a byte of its row | medium, not executed | Findings.AsWrittenRejectsEveryEdge | Layout.EdgeIndexInBounds |
