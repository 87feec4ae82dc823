# Row-partitioned matrix product, C and Go versions, in Dafny

The program multiplies two dense matrices in two ways and expects the same answer from both.

The C version (`matrix_mul.c`) works like this:
- It clamps the worker count to at least 1.
- It checks that A's column count equals B's row count.
- It zero-fills a shared row-major buffer of `filasA * columnasB` cells.
- It splits the rows of A into `num_procesos` contiguous half-open ranges, `start = p*base + min(p, resto)` and `end = start + base + (p < resto ? 1 : 0)`.
- One child process per range writes its rows at offset `i*columnasB + j`.
- Afterwards `multiplicar_matrices` computes the same product with the reference triple loop.

The reader `leer_matriz` takes the column count from a scan of the first line.

The Go version (`matrix_mul.go`) works like this:
- `multiplySequential` is the reference.
- In `multiplyParallel`, goroutines take row indices from a job channel and send whole rows back.
- Each row is stored at its index in whatever order it arrives.
- `main` rejects an empty A, an empty B, or `len(A[0]) != len(B)`.

The model works as follows:
- Entries are integers, so both sums are exact and "parallel equals sequential" is an equality.
- Processes and goroutines run one after another. The order is a parameter: `schedule` is any permutation of the worker indices, and `arrival` is any permutation of the row indices. Every result is proved for every such order.
- The C shared buffer is an `array<int>` updated in place. Each child's loop is a method whose contract names exactly the cells it writes.

Modules:
- `Matrices` (matrices.dfy): the product `Product`, defined through `Dot` (a left-to-right sum). Also the row-major offset `Cell`, its inverse `Position`, the row view of a flat buffer, and permutations of `0..n-1`.
- `Partitioner` (partition.dfy): the worker-count clamp and the row split. It also has a closed-form reference `Owner(i)` for the worker that owns row i.
- `SharedProduct` (shared_product.dfy): the C child body, the C partition loop over the shared buffer, `multiplicar_matrices`, and the computational part of C `main`.
- `ColumnScan` (column_scan.dfy): the first-line column counter of `leer_matriz`. It is checked against a reference count of words.
- `ChannelProduct` (channel_product.dfy): the Go functions and the computational part of Go `main`.

Two details of the source that the model keeps:
- The partition arithmetic also works for 0 rows, giving every worker an empty range. C `main` never reaches it with 0 rows, because `shmget` has already refused the zero-byte segment.
- The column scan steps over any character that cannot start a number one at a time, even inside a word. So it counts every blank-separated word that contains a digit, `-` or `+` anywhere, not only the words that start with one (`a1` counts, `abc` does not).

## Model

| member | source | states |
|---|---|---|
| Matrices.Product | matrix_mul.c:245-258 | the product of A and B is an \|A\| x cols matrix whose entry (i, j) is the sum of A[i][t]*B[t][j] over t < inner, accumulated from zero in increasing t |
| Matrices.ProductExample | matrix_mul.c:245-258 | [[1,2,3],[4,5,6]] times [[7,8],[9,10],[11,12]] is [[58,64],[139,154]] |
| Matrices.CellInRange | matrix_mul.c:68-68 | for 0 <= i < filasA and 0 <= j < columnasB the offset i*columnasB + j lies in [0, filasA*columnasB), and division and remainder by columnasB give back i and j |
| Matrices.CellInjective | matrix_mul.c:109-109 | distinct (i, j) cells have distinct offsets i*columnasB + j |
| Matrices.Position | matrix_mul.c:85-86 | every offset x of the buffer is the offset of an in-range cell (row, column), and no other cell (i, j) with 0 <= j < columnasB has offset x |
| Matrices.PositionOfCell | matrix_mul.c:109-109 | the cell read back from the offset of (i, j) is (i, j) |
| Matrices.RowSlice | matrix_mul.c:147-148 | row i of the buffer, starting at &C_shm[i*columnasB], has columnasB entries, entry j being cell i*columnasB + j |
| Matrices.RowView | matrix_mul.c:146-149 | the rows C_ptrs over the flat buffer form a filasA x columnasB matrix |
| Matrices.RowViewCell | matrix_mul.c:146-149 | entry (i, j) of the row view is buffer cell i*columnasB + j |
| Matrices.PermutationMembers | matrix_mul.c:92-95 | an order of all workers (or of all rows) contains exactly the indices 0..n-1 |
| Matrices.IotaOnce | matrix_mul.go:142-145 | the sequence 0..n-1 holds every index in [0, n) exactly once and nothing else |
| Partitioner.ClampWorkers | matrix_mul.c:33-39 | the worker count is 4 without an argument, the argument when it is at least 1, and 1 otherwise; it is always at least 1 |
| Partitioner.Contiguous | matrix_mul.c:89-95 | worker 0 starts at row 0, each worker's end is the next worker's start, and the last worker ends at filasA |
| Partitioner.PartitionSize | matrix_mul.c:89-95 | each range lies in [0, filasA) and has base+1 rows for the first resto workers and base rows for the rest |
| Partitioner.StartMonotone | matrix_mul.c:94-94 | a later worker never starts before an earlier one |
| Partitioner.Balanced | matrix_mul.c:89-95 | two ranges differ in size by at most one row, and an earlier worker never has fewer rows than a later one |
| Partitioner.Disjoint | matrix_mul.c:94-95 | the range of an earlier worker ends no later than the range of a later worker begins, so no two ranges overlap |
| Partitioner.OwnerHolds | matrix_mul.c:89-95 | every row in [0, filasA) lies in the range of a worker, namely Owner(i), which is in [0, num_procesos) |
| Partitioner.OwnerInLongBlock | matrix_mul.c:94-95 | a row below resto*(base+1) lies in the range of worker i/(base+1), one of the first resto workers |
| Partitioner.OwnerInShortBlock | matrix_mul.c:94-95 | a row from resto*(base+1) on lies in the range of worker resto + (i - resto*(base+1))/base |
| Partitioner.OwnerCorrect | matrix_mul.c:89-95 | row i lies in worker p's range if and only if p is Owner(i): the ranges cover [0, filasA) with no row in two of them |
| Partitioner.Oversubscribed | matrix_mul.c:94-95 | with more workers than rows, each worker p >= filasA has the empty range start == end == filasA |
| Partitioner.SingleWorker | matrix_mul.c:89-95 | one worker gets the single range [0, filasA) |
| SharedProduct.ComputeRows | matrix_mul.c:100-111 | a child for rows [start, end) sets every cell whose row is in [start, end) to the product's entry and leaves every other cell as it was; an empty range writes nothing |
| SharedProduct.ParallelMultiply | matrix_mul.c:85-111 | after zero-filling and running all workers in any order, the buffer has filasA*columnasB cells and cell i*columnasB + j equals entry (i, j) of the product |
| SharedProduct.MultiplyMatrices | matrix_mul.c:245-258 | multiplicar_matrices returns filasA rows of colsB entries, entry (i, j) being the sum of A[i][k]*B[k][j] over k < colsA accumulated onto calloc's zero |
| SharedProduct.RunProgram | matrix_mul.c:33-159 | the program stops with IncompatibleDimensions on columnasA != filasB and only then; with compatible dimensions it stops with SegmentRefused exactly when the product is empty (filasA*columnasB == 0), because `shmget` refuses the zero-byte segment; otherwise the parallel result viewed as rows equals the sequential result, and both are the product |
| ColumnScan.StrLen | matrix_mul.c:187-187 | the C string in a buffer ends at its first NUL, or at the buffer's end |
| ColumnScan.WordLength | matrix_mul.c:194-195 | the run skipped after a number ends at the first space, tab or newline, or at the end |
| ColumnScan.CountColumns | matrix_mul.c:186-201 | the count is the number of maximal runs of characters other than space, tab and newline that contain a digit, '-' or '+' |
| ColumnScan.SkipBlanks | matrix_mul.c:189-190 | every character passed is a space or a tab, the pointer stops at a character that is neither, and the count of the rest is unchanged |
| ColumnScan.SkipNumber | matrix_mul.c:191-196 | from a digit or sign the pointer moves to the end of the word (the first space, tab, newline or the end of the string), at least one character, and that word counts exactly once |
| ColumnScan.AtInString | matrix_mul.c:187-199 | inside the C string the pointer sees the string's characters, and at its end it sees the NUL |
| ColumnScan.WordLengthIs | matrix_mul.c:194-195 | the word length is the unique position before which there is no delimiter and at which there is one or the end |
| ColumnScan.WordCounted | matrix_mul.c:191-196 | a word that begins with a digit or sign counts one, and counting resumes after it |
| ColumnScan.SkipNonNumber | matrix_mul.c:197-200 | skipping a single character that cannot begin a number, even in the middle of a word, leaves the count unchanged |
| ColumnScan.WordThenRest | matrix_mul.c:186-201 | a word followed by a delimiter or the end adds one to the count when it contains a digit or sign, and nothing otherwise |
| ColumnScan.NumbersLine | matrix_mul.c:186-201 | a first line of k numbers separated by single spaces and ended by a newline has k columns |
| ColumnScan.NumbersWords | matrix_mul.c:186-201 | such a line, read to its end, holds k counted words |
| ColumnScan.NoNulLine | matrix_mul.c:187-187 | such a line holds no NUL, so all of it is scanned |
| ColumnScan.NoNulJoin | matrix_mul.c:187-187 | joining numbers with spaces adds no NUL |
| ColumnScan.StrLenNoNul | matrix_mul.c:187-187 | a buffer without NUL is a C string of its full length |
| ChannelProduct.GoProduct | matrix_mul.go:75-91 | the product is a len(A) x len(B[0]) matrix |
| ChannelProduct.MultiplySequential | matrix_mul.go:75-91 | multiplySequential returns len(A) rows of len(B[0]) entries, entry (i, j) being the sum of A[i][k]*B[k][j] over k < len(B) |
| ChannelProduct.ComputeRow | matrix_mul.go:103-110 | the row a worker computes for job i equals row i of multiplySequential's result |
| ChannelProduct.SendJobs | matrix_mul.go:142-145 | the jobs sent are 0, 1, ..., len(A)-1 in order: every row index exactly once and nothing else |
| ChannelProduct.RunWorkers | matrix_mul.go:94-116 | with at least one worker, the result channel holds one message per row index, in arrival order, carrying that row of the product, and every message's row index is one of the jobs sent; with none it holds nothing |
| ChannelProduct.MultiplyParallel | matrix_mul.go:119-158 | C starts as len(A) rows of len(B[0]) zeros; with at least one worker, storing each arriving row at its index gives the product for any arrival order; with no worker the result is all zeros |
| ChannelProduct.NoWorkersLoseTheProduct | matrix_mul.go:136-157 | for A = B = [[1]] the product is [[1]] while the zero-worker result is [[0]] |
| ChannelProduct.MultiplyParallelClamped | matrix_mul.go:119-158 | with the worker count raised to at least 1, the parallel result equals the product for every worker count and arrival order |
| ChannelProduct.GuardSuffices | matrix_mul.go:179-182 | for rectangular inputs, passing the dimension check makes every index of both products valid |
| ChannelProduct.RunProgram | matrix_mul.go:167-197 | main stops on len(A)==0, len(B)==0 or len(A[0]) != len(B) before any product, and only then; a ragged input that passes panics exactly when an index is out of range; otherwise the sequential result is the product, and the parallel result is the product when `-p` is at least 1 and all zeros when it is below 1 (see Findings) |

## Left out

- Processes and shared memory (`fork`, `shmget`, `shmat`, `shmdt`, `shmctl`, `waitpid`, `exit`; matrix_mul.c:68-84, 96-137): children run one after another in an arbitrary order (`schedule`). Their write ranges are disjoint, so the order is proved not to matter. Real concurrency is not modelled.
- Allocation and fork failure paths (matrix_mul.c:69-84, 121-132): apart from the zero-byte segment, which `shmget` always refuses (`SegmentRefused`), the model assumes the shared buffer is obtained and every fork succeeds. Running out of resources is not modelled.
- Child processes that die: the model assumes every child runs to completion. The program would not notice one that did not (matrix_mul.c:134-137 ignores the exit status), and that child's rows would be written out as the zeros of the zero-fill.
- Goroutines, channels and `sync.WaitGroup` (matrix_mul.go:128-151): the workers are one loop over the jobs in an arbitrary arrival order, and the channels are sequences.
- File reading and writing: `leer_matriz` apart from its first-line scan, `escribir_matriz`, `readMatrix`, `writeMatrix`, `fscanf`/`strconv.ParseFloat` and the `%.15f` output. This is I/O and float formatting. A and B enter the model as values.
- ColumnScan.CountColumns: the 4096-byte `fgets` buffer is not modelled. A first line longer than that is cut by `fgets` before the scan sees it.
- Floating point: entries are unbounded integers. Rounding of `float`/`float64` accumulation is not modelled.
- C `int` overflow of `filasA * columnasB` and `i * columnasB + j`: sizes are assumed to fit.
- Timing and speedup (`clock_gettime`, `time.Now`, the speedup division): these depend on clocks and floats.
- Memory release (`liberar_matriz`, `free`, `shmdt`): there is no functional behaviour to state.
- Argument parsing (`atoi`, Go `flag`): the parsed worker count is a parameter.

## Findings

| source | as written | input that shows it | evidently intended | confidence | as-written member | corrected member |
|---|---|---|---|---|---|---|
| matrix_mul.go:136-157 | `multiplyParallel` does not clamp `workers`. With `-p 0` or a negative value no goroutine starts, the result channel closes empty, and the zero matrix is returned as the parallel result. | `-p 0` with A = B = [[1]]: the parallel result is [[0]], the sequential one is [[1]] (lemma ChannelProduct.NoWorkersLoseTheProduct) | the parallel result equals the product for every worker count, as in the C version, which clamps to 1 (matrix_mul.c:36-38) | not executed | ChannelProduct.MultiplyParallel | ChannelProduct.MultiplyParallelClamped |
