/** The C program's two products: the parallel one, in which worker processes
    fill disjoint row ranges of one zero-initialised, row-major shared buffer,
    and the sequential reference `multiplicar_matrices`. The processes are run
    one after another, in an arbitrary order. */
module SharedProduct {
  import opened Matrices
  import opened Partitioner

  /** The value the shared buffer must hold at offset x once the product is
      complete: the product's entry at the cell stored there. */
  function Expected(A: Matrix, B: Matrix, inner: int, cols: int, x: int): int
    requires Multipliable(A, B, inner, cols) && 0 <= x < |A| * cols
  {
    var ij := Position(x, |A|, cols);
    Product(A, B, inner, cols)[ij.0][ij.1]
  }

  /** The body of one child process: compute rows [start, end) of the product
      into the shared buffer C. Exactly the cells of those rows are written;
      every other cell keeps its value. */
  method ComputeRows(A: Matrix, B: Matrix, columnasA: int, columnasB: int,
                     C: array<int>, start: int, end: int)
    requires Multipliable(A, B, columnasA, columnasB)
    requires 0 <= start <= end <= |A| && C.Length == |A| * columnasB
    modifies C
    ensures forall x :: 0 <= x < C.Length ==>
      C[x] == if start <= Position(x, |A|, columnasB).0 < end
              then Expected(A, B, columnasA, columnasB, x) else old(C[x])
  {
    var i := start;
    while i < end
      invariant start <= i <= end
      invariant forall x :: 0 <= x < C.Length ==>
        C[x] == if start <= Position(x, |A|, columnasB).0 < i
                then Expected(A, B, columnasA, columnasB, x) else old(C[x])
    {
      var j := 0;
      while j < columnasB
        invariant 0 <= j <= columnasB
        invariant forall x :: 0 <= x < C.Length ==>
          C[x] == if Done(Position(x, |A|, columnasB), start, i, j)
                  then Expected(A, B, columnasA, columnasB, x) else old(C[x])
      {
        var suma := 0;
        var k := 0;
        while k < columnasA
          invariant 0 <= k <= columnasA
          invariant suma == Dot(A, B, i, j, k)
        {
          suma := suma + A[i][k] * B[k][j];
          k := k + 1;
        }
        PositionOfCell(i, j, |A|, columnasB);
        C[i * columnasB + j] := suma;
        j := j + 1;
      }
      i := i + 1;
    }
  }

  /** Cell ij is among those written so far: rows [start, i) and, in row i,
      columns [0, j). */
  predicate Done(ij: (int, int), start: int, i: int, j: int)
  {
    start <= ij.0 < i || (ij.0 == i && ij.1 < j)
  }

  /** The parallel product of the C program: allocate and zero the shared
      buffer of filasA * columnasB cells, split the rows among numProcesos
      workers, and run each worker's ComputeRows; the workers run in the order
      `schedule`, any order of 0, ..., numProcesos - 1. Afterwards every cell
      holds the product's entry, whatever the order. */
  method ParallelMultiply(A: Matrix, filasA: int, columnasA: int, B: Matrix, columnasB: int,
                          numProcesos: int, schedule: seq<int>)
    returns (shared: seq<int>)
    requires IsMatrix(A, filasA, columnasA) && Multipliable(A, B, columnasA, columnasB)
    requires numProcesos >= 1 && IsPermutation(schedule, numProcesos)
    ensures |shared| == filasA * columnasB
    ensures forall x :: 0 <= x < |shared| ==> shared[x] == Expected(A, B, columnasA, columnasB, x)
    ensures forall i, j :: 0 <= i < filasA && 0 <= j < columnasB ==>
      0 <= Cell(i, j, columnasB) < |shared| &&
      shared[Cell(i, j, columnasB)] == Product(A, B, columnasA, columnasB)[i][j]
  {
    MulLeft(0, filasA, columnasB);
    var size := filasA * columnasB;
    var C := new int[size];
    for x := 0 to size
      invariant forall y :: 0 <= y < x ==> C[y] == 0
    {
      C[x] := 0;
    }

    var filasPorProceso := filasA / numProcesos;
    var resto := filasA % numProcesos;
    assert |schedule| == numProcesos by {
      assert |multiset(schedule)| == |multiset(Iota(numProcesos))|;
    }
    for t := 0 to numProcesos
      invariant forall x :: 0 <= x < size ==>
        C[x] == if Owner(filasA, numProcesos, Position(x, filasA, columnasB).0) in schedule[..t]
                then Expected(A, B, columnasA, columnasB, x) else 0
    {
      var p := schedule[t];
      PermutationMembers(schedule, numProcesos, p);
      var start := p * filasPorProceso + (if p < resto then p else resto);
      var end := start + filasPorProceso + (if p < resto then 1 else 0);
      assert start == Start(filasA, numProcesos, p) && end == End(filasA, numProcesos, p);
      PartitionSize(filasA, numProcesos, p);
      ghost var before := C[..];
      ComputeRows(A, B, columnasA, columnasB, C, start, end);
      forall x | 0 <= x < size
        ensures C[x] == if Owner(filasA, numProcesos, Position(x, filasA, columnasB).0) in schedule[..t + 1]
                        then Expected(A, B, columnasA, columnasB, x) else 0
      {
        var row := Position(x, filasA, columnasB).0;
        OwnerCorrect(filasA, numProcesos, p, row);
        assert schedule[..t + 1] == schedule[..t] + [p];
        assert C[x] == if start <= row < end then Expected(A, B, columnasA, columnasB, x) else before[x];
      }
    }
    shared := C[..];
    forall x | 0 <= x < size
      ensures shared[x] == Expected(A, B, columnasA, columnasB, x)
    {
      var row := Position(x, filasA, columnasB).0;
      OwnerHolds(filasA, numProcesos, row);
      PermutationMembers(schedule, numProcesos, Owner(filasA, numProcesos, row));
      assert schedule[..numProcesos] == schedule;
    }
    forall i, j | 0 <= i < filasA && 0 <= j < columnasB
      ensures 0 <= Cell(i, j, columnasB) < |shared|
      ensures shared[Cell(i, j, columnasB)] == Product(A, B, columnasA, columnasB)[i][j]
    {
      PositionOfCell(i, j, filasA, columnasB);
    }
  }

  /** `multiplicar_matrices`: a fresh filasA x colsB matrix whose rows start as
      zeros (calloc) and whose entry (i, j) accumulates A[i][k] * B[k][j] for
      k = 0, ..., colsA - 1. B's row count filasB is not used. */
  method MultiplyMatrices(A: Matrix, filasA: int, colsA: int, B: Matrix, filasB: int, colsB: int)
    returns (C: Matrix)
    requires IsMatrix(A, filasA, colsA) && Multipliable(A, B, colsA, colsB)
    ensures IsMatrix(C, filasA, colsB)
    ensures C == Product(A, B, colsA, colsB)
  {
    var rows := new seq<int>[filasA];
    for i := 0 to filasA
      invariant forall r :: 0 <= r < i ==> rows[r] == Product(A, B, colsA, colsB)[r]
    {
      var row := new int[colsB](_ => 0);
      for j := 0 to colsB
        modifies row
        invariant forall c :: 0 <= c < j ==> row[c] == Dot(A, B, i, c, colsA)
        invariant forall c :: j <= c < colsB ==> row[c] == 0
      {
        for k := 0 to colsA
          modifies row
          invariant row[j] == Dot(A, B, i, j, k)
          invariant forall c :: 0 <= c < j ==> row[c] == Dot(A, B, i, c, colsA)
          invariant forall c :: j < c < colsB ==> row[c] == 0
        {
          row[j] := row[j] + A[i][k] * B[k][j];
        }
      }
      assert row[..] == Product(A, B, colsA, colsB)[i];
      rows[i] := row[..];
    }
    C := rows[..];
  }

  /** What the C program ends with: it stops with exit status 1 when A's
      column count differs from B's row count, or when the shared segment is
      refused; otherwise it writes the parallel result (the shared buffer read
      back row by row) and the sequential one. */
  datatype Run = IncompatibleDimensions | SegmentRefused | Finished(parallel: Matrix, sequential: Matrix)

  /** `shmget` refuses a segment of zero bytes (its size is below the system
      minimum of one byte), so an empty product never gets a shared buffer. */
  predicate SegmentGranted(filasA: int, columnasB: int)
  {
    filasA * columnasB != 0
  }

  /** The computational part of the C program's main: clamp the worker count,
      check the dimensions, obtain the shared segment, run the parallel
      product in the worker order `schedule`, view the shared buffer as rows,
      run the sequential product. A and B are the matrices as read from the
      input files. */
  method RunProgram(hasArgument: bool, parsed: int,
                    A: Matrix, filasA: int, columnasA: int,
                    B: Matrix, filasB: int, columnasB: int,
                    schedule: seq<int>)
    returns (r: Run)
    requires IsMatrix(A, filasA, columnasA) && IsMatrix(B, filasB, columnasB)
    requires IsPermutation(schedule, ClampWorkers(hasArgument, parsed))
    ensures r.IncompatibleDimensions? <==> columnasA != filasB
    ensures r.SegmentRefused? <==> columnasA == filasB && !SegmentGranted(filasA, columnasB)
    ensures r.Finished? ==> r.parallel == r.sequential
    ensures r.Finished? ==> r.sequential == Product(A, B, columnasA, columnasB)
  {
    var numProcesos := ClampWorkers(hasArgument, parsed);
    if columnasA != filasB {
      return IncompatibleDimensions;
    }
    if !SegmentGranted(filasA, columnasB) {
      return SegmentRefused;
    }
    var shared := ParallelMultiply(A, filasA, columnasA, B, columnasB, numProcesos, schedule);
    var parallel := RowView(shared, filasA, columnasB);
    var sequential := MultiplyMatrices(A, filasA, columnasA, B, filasB, columnasB);
    forall i | 0 <= i < filasA
      ensures parallel[i] == sequential[i]
    {
      forall j | 0 <= j < columnasB
        ensures parallel[i][j] == sequential[i][j]
      {
        RowViewCell(shared, filasA, columnasB, i, j);
      }
    }
    r := Finished(parallel, sequential);
  }
}
