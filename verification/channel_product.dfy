/** The Go program's two products: `multiplySequential`, and
    `multiplyParallel`, in which goroutines take row indices from a job
    channel and send whole rows back on a result channel, where they are
    stored at their row index in whatever order they arrive. */
module ChannelProduct {
  import opened Matrices

  /** `multiplySequential` reads B[0] and then A[i][k] and B[k][j] for
      i < len(A), j < len(B[0]), k < len(B); it runs without an index-out-of-
      range panic exactly when this holds. */
  predicate InBounds(A: Matrix, B: Matrix)
  {
    |B| > 0 && Multipliable(A, B, |B|, |B[0]|)
  }

  /** The product both Go functions are meant to compute. */
  function GoProduct(A: Matrix, B: Matrix): (C: Matrix)
    requires InBounds(A, B)
    ensures IsMatrix(C, |A|, |B[0]|)
  {
    Product(A, B, |B|, |B[0]|)
  }

  /** `multiplySequential`: len(A) fresh rows of len(B[0]) zeros, entry (i, j)
      set to the sum of A[i][k] * B[k][j] over k < len(B). */
  method MultiplySequential(A: Matrix, B: Matrix) returns (C: Matrix)
    requires InBounds(A, B)
    ensures |C| == |A| && forall i :: 0 <= i < |C| ==> |C[i]| == |B[0]|
    ensures forall i, j :: 0 <= i < |A| && 0 <= j < |B[0]| ==> C[i][j] == Dot(A, B, i, j, |B|)
    ensures C == GoProduct(A, B)
  {
    var N, M, P := |A|, |B|, |B[0]|;
    var rows := new seq<int>[N];
    for i := 0 to N
      invariant forall r :: 0 <= r < i ==> rows[r] == GoProduct(A, B)[r]
    {
      var row := new int[P](_ => 0);
      for j := 0 to P
        modifies row
        invariant forall c :: 0 <= c < j ==> row[c] == Dot(A, B, i, c, M)
      {
        var sum := 0;
        for k := 0 to M
          invariant sum == Dot(A, B, i, j, k)
        {
          sum := sum + A[i][k] * B[k][j];
        }
        row[j] := sum;
      }
      assert row[..] == GoProduct(A, B)[i];
      rows[i] := row[..];
    }
    C := rows[..];
  }

  /** The row a `worker` computes for job i: len(B[0]) entries, entry j the
      sum of A[i][k] * B[k][j] over k < len(B). */
  method ComputeRow(A: Matrix, B: Matrix, i: int) returns (r: seq<int>)
    requires InBounds(A, B) && 0 <= i < |A|
    ensures r == GoProduct(A, B)[i]
  {
    var P, M := |B[0]|, |B|;
    var row := new int[P](_ => 0);
    for j := 0 to P
      invariant forall c :: 0 <= c < j ==> row[c] == Dot(A, B, i, c, M)
    {
      var sum := 0;
      for k := 0 to M
        invariant sum == Dot(A, B, i, j, k)
      {
        sum := sum + A[i][k] * B[k][j];
      }
      row[j] := sum;
    }
    r := row[..];
  }

  /** The jobs sent on the job channel: 0, 1, ..., N - 1 in this order, so every
      row index is sent exactly once and nothing else is sent. */
  method SendJobs(N: nat) returns (jobs: seq<int>)
    ensures |jobs| == N && forall k :: 0 <= k < N ==> jobs[k] == k
    ensures forall x :: multiset(jobs)[x] == if 0 <= x < N then 1 else 0
  {
    jobs := [];
    for i := 0 to N
      invariant jobs == Iota(i)
    {
      jobs := jobs + [i];
    }
    forall x
      ensures multiset(jobs)[x] == if 0 <= x < N then 1 else 0
    {
      IotaOnce(N, x);
    }
  }

  /** A message on the result channel. */
  datatype RowResult = RowResult(row: int, data: seq<int>)

  /** The rows that reach the result channel, in their order of arrival:
      every job's row, in the order `arrival`, when there is at least one
      worker; none when there is no worker to take the jobs. */
  function Delivered(workers: int, arrival: seq<int>): seq<int>
  {
    if workers >= 1 then arrival else []
  }

  /** The goroutines of `multiplyParallel`: every job taken from the job
      channel is computed by `worker` and its row sent on the result channel.
      The result channel then holds, in arrival order, one message per
      delivered row index carrying that row of the product. */
  method RunWorkers(A: Matrix, B: Matrix, workers: int, jobs: seq<int>, arrival: seq<int>)
    returns (results: seq<RowResult>)
    requires InBounds(A, B)
    requires jobs == Iota(|A|) && IsPermutation(arrival, |A|)
    ensures |results| == |Delivered(workers, arrival)|
    ensures forall s :: 0 <= s < |results| ==>
      var i := Delivered(workers, arrival)[s];
      0 <= i < |A| && results[s] == RowResult(i, GoProduct(A, B)[i])
    ensures forall s :: 0 <= s < |results| ==> results[s].row in jobs
  {
    results := [];
    if workers >= 1 {
      assert |arrival| == |A| by {
        assert |multiset(arrival)| == |multiset(Iota(|A|))|;
      }
      for t := 0 to |arrival|
        invariant |results| == t
        invariant forall s :: 0 <= s < t ==>
          0 <= arrival[s] < |A| && results[s] == RowResult(arrival[s], GoProduct(A, B)[arrival[s]])
        invariant forall s :: 0 <= s < t ==> results[s].row in jobs
      {
        var i := arrival[t];
        PermutationMembers(arrival, |A|, i);
        assert jobs[i] == i;
        var r := ComputeRow(A, B, i);
        results := results + [RowResult(i, r)];
      }
    }
  }

  /** `multiplyParallel` as written. C starts as len(A) rows of len(B[0])
      zeros; the jobs 0, ..., len(A) - 1 are sent; `workers` goroutines take
      them and send back their rows; each row is stored at its index in the
      order `arrival` in which it comes in, any order of the jobs. With at
      least one worker the result is the product whatever the arrival order.
      With none, no job is taken, the result channel is closed empty, and C is
      returned all zeros. */
  method MultiplyParallel(A: Matrix, B: Matrix, workers: int, arrival: seq<int>)
    returns (C: Matrix)
    requires InBounds(A, B)
    requires IsPermutation(arrival, |A|)
    ensures workers >= 1 ==> C == GoProduct(A, B)
    ensures workers < 1 ==> C == Zeros(|A|, |B[0]|)
  {
    var N, P := |A|, |B[0]|;
    var c := new seq<int>[N];
    for i := 0 to N
      invariant forall r :: 0 <= r < i ==> c[r] == Zeros(N, P)[r]
    {
      c[i] := seq(P, _ => 0);
    }
    var jobs := SendJobs(N);
    assert jobs == Iota(N);
    var results := RunWorkers(A, B, workers, jobs, arrival);
    ghost var delivered := Delivered(workers, arrival);

    // Collecting: C[res.row] = res.data for each result as it arrives.
    for t := 0 to |results|
      invariant forall r :: 0 <= r < N ==>
        c[r] == if r in delivered[..t] then GoProduct(A, B)[r] else Zeros(N, P)[r]
    {
      c[results[t].row] := results[t].data;
      assert delivered[..t + 1] == delivered[..t] + [delivered[t]];
    }
    C := c[..];
    if workers >= 1 {
      forall r | 0 <= r < N
        ensures C[r] == GoProduct(A, B)[r]
      {
        PermutationMembers(arrival, N, r);
        assert delivered[..|results|] == arrival;
      }
    }
  }

  /** With no workers the parallel result of A = B = [[1]] is [[0]], while the
      product is [[1]]. */
  lemma NoWorkersLoseTheProduct()
    ensures InBounds([[1]], [[1]])
    ensures GoProduct([[1]], [[1]]) == [[1]]
    ensures Zeros(1, 1) != GoProduct([[1]], [[1]])
  {
    assert GoProduct([[1]], [[1]])[0] == [1];
    assert Zeros(1, 1)[0][0] == 0;
  }

  /** `multiplyParallel` with the worker count raised to at least one, as the
      C program does: the product for every worker count and arrival order. */
  method MultiplyParallelClamped(A: Matrix, B: Matrix, workers: int, arrival: seq<int>)
    returns (C: Matrix)
    requires InBounds(A, B)
    requires IsPermutation(arrival, |A|)
    ensures C == GoProduct(A, B)
  {
    var w := if workers < 1 then 1 else workers;
    C := MultiplyParallel(A, B, w, arrival);
  }

  /** The dimension check of `main`: both matrices have a row, and A's first
      row is as long as B has rows. */
  predicate DimensionsCompatible(A: Matrix, B: Matrix)
  {
    |A| != 0 && |B| != 0 && |A[0]| == |B|
  }

  /** Every row of m is as long as its first. */
  predicate Rectangular(m: Matrix)
  {
    forall i :: 0 <= i < |m| ==> |m[i]| == |m[0]|
  }

  /** For rectangular inputs the dimension check is enough to make every
      index of the products valid. */
  lemma GuardSuffices(A: Matrix, B: Matrix)
    requires Rectangular(A) && Rectangular(B)
    ensures DimensionsCompatible(A, B) ==> InBounds(A, B)
    ensures |A| > 0 && |B| > 0 && |B[0]| > 0 && InBounds(A, B) ==> |A[0]| >= |B|
  {
  }

  /** What the Go program ends with: exit status 1 on incompatible dimensions;
      an index-out-of-range panic on ragged input that passes the check; or
      the two results it writes. */
  datatype Run = IncompatibleDimensions | IndexOutOfRange | Finished(sequential: Matrix, parallel: Matrix)

  /** The computational part of the Go program's main, for matrices A and B
      as read from the input files: the check, then the sequential product,
      then the parallel one with the worker count `numProc` exactly as given,
      its rows arriving in the order `arrival`. A count below one gives the
      all-zero parallel result of MultiplyParallel. */
  method RunProgram(A: Matrix, B: Matrix, numProc: int, arrival: seq<int>) returns (r: Run)
    requires IsPermutation(arrival, |A|)
    ensures r.IncompatibleDimensions? <==> !DimensionsCompatible(A, B)
    ensures r.IndexOutOfRange? <==> DimensionsCompatible(A, B) && !InBounds(A, B)
    ensures r.Finished? ==> InBounds(A, B) && r.sequential == GoProduct(A, B)
    ensures r.Finished? && numProc >= 1 ==> r.parallel == GoProduct(A, B)
    ensures r.Finished? && numProc < 1 ==> r.parallel == Zeros(|A|, |B[0]|)
  {
    if !DimensionsCompatible(A, B) {
      return IncompatibleDimensions;
    }
    if !InBounds(A, B) {
      return IndexOutOfRange;
    }
    var sequential := MultiplySequential(A, B);
    var parallel := MultiplyParallel(A, B, numProc, arrival);
    r := Finished(sequential, parallel);
  }
}
