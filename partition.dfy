/** The static row distribution of postFuncion (src/scalaf.c:222-226): `n` rows
    are split between `size` processes; process `rank` owns rows
    [StartRow, EndRow). Every quantity is non-negative, so C's truncating
    `/` and `%` agree with Dafny's Euclidean ones here. */
module Partition {
  import opened Grid

  /** `num_rows = n_filas / size` */
  function BaseRows(n: int, size: int): int
    requires 0 <= n && 1 <= size
  {
    n / size
  }

  /** `remainder = n_filas % size` */
  function ExtraRows(n: int, size: int): int
    requires 0 <= n && 1 <= size
  {
    n % size
  }

  /** `start_row = rank * num_rows + (rank < remainder ? rank : remainder)` */
  function StartRow(n: int, size: int, rank: int): int
    requires 0 <= n && 1 <= size && 0 <= rank
  {
    rank * BaseRows(n, size) + (if rank < ExtraRows(n, size) then rank else ExtraRows(n, size))
  }

  /** `end_row = start_row + num_rows + (rank < remainder)` */
  function EndRow(n: int, size: int, rank: int): int
    requires 0 <= n && 1 <= size && 0 <= rank
  {
    StartRow(n, size, rank) + BaseRows(n, size) + (if rank < ExtraRows(n, size) then 1 else 0)
  }

  /** The head of postFuncion: number of rows, remainder, and the local range. */
  method RowRange(n_filas: int, size: int, rank: int) returns (start_row: int, end_row: int)
    requires 0 <= n_filas && 0 <= rank < size
    ensures start_row == StartRow(n_filas, size, rank) && end_row == EndRow(n_filas, size, rank)
    ensures 0 <= start_row <= end_row <= n_filas
  {
    var num_rows := n_filas / size;
    var remainder := n_filas % size;
    start_row := rank * num_rows + (if rank < remainder then rank else remainder);
    end_row := start_row + num_rows + (if rank < remainder then 1 else 0);
    PartitionBounds(n_filas, size, rank);
  }

  /** Each range lies inside [0, n) and holds `num_rows` rows, plus one for the
      first `remainder` ranks. */
  lemma PartitionBounds(n: int, size: int, rank: int)
    requires 0 <= n && 1 <= size && 0 <= rank < size
    ensures 0 <= StartRow(n, size, rank) <= EndRow(n, size, rank) <= n
    ensures EndRow(n, size, rank) - StartRow(n, size, rank)
            == BaseRows(n, size) + (if rank < ExtraRows(n, size) then 1 else 0)
    ensures EndRow(n, size, rank) - StartRow(n, size, rank) == BaseRows(n, size)
         || EndRow(n, size, rank) - StartRow(n, size, rank) == BaseRows(n, size) + 1
  {
    var q, r := n / size, n % size;
    assert n == size * q + r;
    MulMono(0, rank, q);
    MulMono(rank + 1, size, q);
    assert (rank + 1) * q == rank * q + q;
    assert size * q == q * size;
  }

  lemma PartitionFirst(n: int, size: int)
    requires 0 <= n && 1 <= size
    ensures StartRow(n, size, 0) == 0
  {
  }

  /** Consecutive ranks own adjacent ranges: no gap and no overlap. */
  lemma PartitionContiguous(n: int, size: int, rank: int)
    requires 0 <= n && 1 <= size && 0 <= rank && rank + 1 < size
    ensures EndRow(n, size, rank) == StartRow(n, size, rank + 1)
  {
    var q := n / size;
    assert (rank + 1) * q == rank * q + q;
  }

  /** The last rank's range ends at the last row. */
  lemma PartitionLast(n: int, size: int)
    requires 0 <= n && 1 <= size
    ensures EndRow(n, size, size - 1) == n
  {
    var q, r := n / size, n % size;
    assert n == size * q + r;
    assert (size - 1) * q + q == size * q;
  }

  /** Ranges of distinct ranks never overlap. */
  lemma {:induction false} PartitionDisjoint(n: int, size: int, k1: int, k2: int)
    requires 0 <= n && 1 <= size && 0 <= k1 < k2 < size
    ensures EndRow(n, size, k1) <= StartRow(n, size, k2)
    decreases k2 - k1
  {
    PartitionContiguous(n, size, k1);
    if k1 + 1 < k2 {
      PartitionBounds(n, size, k1 + 1);
      PartitionDisjoint(n, size, k1 + 1, k2);
    }
  }

  /** The rank at or after `from` whose range holds row `row`. */
  function OwnerFrom(n: int, size: int, row: int, from: int): (k: int)
    requires 0 <= n && 1 <= size && 0 <= from < size
    requires StartRow(n, size, from) <= row < n
    ensures from <= k < size
    ensures StartRow(n, size, k) <= row < EndRow(n, size, k)
    decreases size - from
  {
    if row < EndRow(n, size, from) then from
    else if from + 1 == size then
      PartitionLast(n, size);
      from
    else
      PartitionContiguous(n, size, from);
      OwnerFrom(n, size, row, from + 1)
  }

  /** Coverage: every row in [0, n) belongs to some rank's range, and to no other. */
  lemma PartitionCovers(n: int, size: int, row: int) returns (owner: int)
    requires 0 <= n && 1 <= size && 0 <= row < n
    ensures 0 <= owner < size
    ensures StartRow(n, size, owner) <= row < EndRow(n, size, owner)
    ensures forall k :: 0 <= k < size && StartRow(n, size, k) <= row < EndRow(n, size, k) ==> k == owner
  {
    owner := OwnerFrom(n, size, row, 0);
    forall k | 0 <= k < size && StartRow(n, size, k) <= row < EndRow(n, size, k)
      ensures k == owner
    {
      if k < owner {
        PartitionDisjoint(n, size, k, owner);
      } else if owner < k {
        PartitionDisjoint(n, size, owner, k);
      }
    }
  }
}
