/** The C program's worker count and its split of the rows of A into one
    contiguous half-open range per worker process. */
module Partitioner {
  import opened Matrices

  /** The number of worker processes: 4 when no argument is given, otherwise
      the argument's integer value `parsed`, raised to 1 when it is below 1
      (so the divisions below never divide by zero). */
  function ClampWorkers(hasArgument: bool, parsed: int): (w: int)
    ensures w >= 1
    ensures !hasArgument ==> w == 4
    ensures hasArgument && parsed >= 1 ==> w == parsed
    ensures hasArgument && parsed < 1 ==> w == 1
  {
    if !hasArgument then 4 else if parsed < 1 then 1 else parsed
  }

  /** Rows every worker gets at least. */
  function Base(n: int, w: int): int
    requires n >= 0 && w >= 1
  {
    n / w
  }

  /** How many workers, the first ones, get one extra row. */
  function Rest(n: int, w: int): int
    requires n >= 0 && w >= 1
  {
    n % w
  }

  /** First row of worker p. */
  function Start(n: int, w: int, p: int): int
    requires n >= 0 && w >= 1 && 0 <= p < w
  {
    p * Base(n, w) + (if p < Rest(n, w) then p else Rest(n, w))
  }

  /** One past the last row of worker p. */
  function End(n: int, w: int, p: int): int
    requires n >= 0 && w >= 1 && 0 <= p < w
  {
    Start(n, w, p) + Base(n, w) + (if p < Rest(n, w) then 1 else 0)
  }

  /** Row i belongs to worker p. */
  predicate InPartition(n: int, w: int, p: int, i: int)
    requires n >= 0 && w >= 1 && 0 <= p < w
  {
    Start(n, w, p) <= i < End(n, w, p)
  }

  /** The worker that owns row i, computed directly: the first Rest * (Base + 1)
      rows are cut into blocks of Base + 1, the remaining ones into blocks of
      Base. */
  function Owner(n: int, w: int, i: int): int
    requires w >= 1 && 0 <= i < n
  {
    var b, r := Base(n, w), Rest(n, w);
    if i < r * (b + 1) then i / (b + 1)
    else
      assert b > 0 by { assert n == w * b + r; }
      r + (i - r * (b + 1)) / b
  }

  /** Worker 0 starts at row 0, each worker ends where the next one starts, and
      the last one ends at row n. */
  lemma {:induction false} Contiguous(n: int, w: int, p: int)
    requires n >= 0 && w >= 1 && 0 <= p < w
    ensures Start(n, w, 0) == 0
    ensures p + 1 < w ==> End(n, w, p) == Start(n, w, p + 1)
    ensures p == w - 1 ==> End(n, w, p) == n
  {
    var b, r := Base(n, w), Rest(n, w);
    assert n == w * b + r;
    assert (p + 1) * b == p * b + b;
  }

  /** Each range lies inside [0, n) and holds Base or
      Base + 1 rows, Base + 1 exactly for the first Rest workers. */
  lemma PartitionSize(n: int, w: int, p: int)
    requires n >= 0 && w >= 1 && 0 <= p < w
    ensures 0 <= Start(n, w, p) <= End(n, w, p) <= n
    ensures End(n, w, p) - Start(n, w, p) == if p < Rest(n, w) then Base(n, w) + 1 else Base(n, w)
  {
    var b := Base(n, w);
    MulLeft(0, p, b);
    Contiguous(n, w, w - 1);
    StartMonotone(n, w, p, w - 1);
  }

  /** Later workers never start earlier. */
  lemma StartMonotone(n: int, w: int, p: int, q: int)
    requires n >= 0 && w >= 1 && 0 <= p <= q < w
    ensures Start(n, w, p) <= Start(n, w, q)
  {
    MulLeft(p, q, Base(n, w));
  }

  /** Any two ranges have sizes differing by at most one, and an earlier worker
      never gets fewer rows than a later one. */
  lemma Balanced(n: int, w: int, p: int, q: int)
    requires n >= 0 && w >= 1 && 0 <= p <= q < w
    ensures var sp, sq := End(n, w, p) - Start(n, w, p), End(n, w, q) - Start(n, w, q);
      sq <= sp <= sq + 1
  {
    PartitionSize(n, w, p);
    PartitionSize(n, w, q);
  }

  /** Ranges of different workers do not overlap: an earlier worker's range
      ends before a later one's begins. */
  lemma Disjoint(n: int, w: int, p: int, q: int)
    requires n >= 0 && w >= 1 && 0 <= p < q < w
    ensures End(n, w, p) <= Start(n, w, q)
  {
    Contiguous(n, w, p);
    StartMonotone(n, w, p + 1, q);
  }

  /** Owner(i) is a worker whose range holds row i. */
  lemma OwnerHolds(n: int, w: int, i: int)
    requires w >= 1 && 0 <= i < n
    ensures 0 <= Owner(n, w, i) < w
    ensures InPartition(n, w, Owner(n, w, i), i)
  {
    if i < Rest(n, w) * (Base(n, w) + 1) {
      OwnerInLongBlock(n, w, i);
    } else {
      OwnerInShortBlock(n, w, i);
    }
  }

  /** A row among the first Rest * (Base + 1) belongs to one of the first Rest
      workers, whose ranges have Base + 1 rows. */
  lemma OwnerInLongBlock(n: int, w: int, i: int)
    requires w >= 1 && 0 <= i < n && i < Rest(n, w) * (Base(n, w) + 1)
    ensures 0 <= Owner(n, w, i) < Rest(n, w) <= w
    ensures InPartition(n, w, Owner(n, w, i), i)
  {
    var b, r := Base(n, w), Rest(n, w);
    var p := i / (b + 1);
    assert p == Owner(n, w, i);
    assert i == p * (b + 1) + i % (b + 1);
    if p >= r { MulLeft(r, p, b + 1); }
    assert p < r;
    assert Start(n, w, p) == p * (b + 1);
    assert End(n, w, p) == p * (b + 1) + (b + 1);
  }

  /** A later row belongs to one of the remaining workers, whose ranges have
      Base rows. */
  lemma OwnerInShortBlock(n: int, w: int, i: int)
    requires w >= 1 && 0 <= i < n && i >= Rest(n, w) * (Base(n, w) + 1)
    ensures 0 <= Owner(n, w, i) < w
    ensures InPartition(n, w, Owner(n, w, i), i)
  {
    var b, r := Base(n, w), Rest(n, w);
    assert n == w * b + r;
    assert b > 0;
    var d := i - r * (b + 1);
    var q := d / b;
    assert d == q * b + d % b;
    var p := r + q;
    assert p == Owner(n, w, i);
    assert d < (w - r) * b;
    if q >= w - r { MulLeft(w - r, q, b); }
    assert Start(n, w, p) == p * b + r;
    assert p * b + r == r * (b + 1) + q * b;
    assert End(n, w, p) == p * b + r + b;
  }

  /** Row i lies in worker p's range if and only if p is its owner: the ranges
      cover [0, n) and no row is in two of them. */
  lemma OwnerCorrect(n: int, w: int, p: int, i: int)
    requires w >= 1 && 0 <= p < w && 0 <= i < n
    ensures InPartition(n, w, p, i) <==> p == Owner(n, w, i)
  {
    OwnerHolds(n, w, i);
    var o := Owner(n, w, i);
    if InPartition(n, w, p, i) && p != o {
      if p < o { Disjoint(n, w, p, o); } else { Disjoint(n, w, o, p); }
    }
  }

  /** With more workers than rows, every worker p >= n has an empty range, so
      its loop over rows writes nothing. */
  lemma Oversubscribed(n: int, w: int, p: int)
    requires n >= 0 && w > n && n <= p < w
    ensures Start(n, w, p) == End(n, w, p) == n
  {
    assert Base(n, w) == 0;
    assert Rest(n, w) == n;
  }

  /** A single worker gets the whole range [0, n). */
  lemma SingleWorker(n: int)
    requires n >= 0
    ensures Start(n, 1, 0) == 0 && End(n, 1, 0) == n
  {
    Contiguous(n, 1, 0);
  }
}
