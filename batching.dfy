/** Accounting for a writer that appends one row at a time and flushes as
    soon as its batch holds `size` rows (`len(batch) >= batch_size`). */
module Batching {

  /** Flushes triggered by the threshold after `n` appended rows. With a
      size of 0 or less every append triggers one. */
  function FullBatches(n: nat, size: int): nat
    decreases n
  {
    if size <= 0 then n else if n < size then 0 else 1 + FullBatches(n - size, size)
  }

  /** Rows left in the batch after `n` appended rows. */
  function Remainder(n: nat, size: int): (r: nat)
    ensures r <= n
    ensures size >= 1 ==> r < size
    decreases n
  {
    if size <= 0 then 0 else if n < size then n else Remainder(n - size, size)
  }

  /** Flushes of a whole run: the threshold flushes plus the final flush,
      which happens only when the batch is not empty. */
  function Flushes(n: nat, size: int): nat
  {
    FullBatches(n, size) + (if Remainder(n, size) > 0 then 1 else 0)
  }

  /** One more append: the batch either grows by one or reaches the
      threshold and is flushed and emptied. */
  lemma {:induction false} Step(n: nat, size: int)
    ensures Remainder(n, size) + 1 >= size ==>
      FullBatches(n + 1, size) == FullBatches(n, size) + 1 && Remainder(n + 1, size) == 0
    ensures Remainder(n, size) + 1 < size ==>
      FullBatches(n + 1, size) == FullBatches(n, size) && Remainder(n + 1, size) == Remainder(n, size) + 1
    decreases n
  {
    if size > 0 && n >= size {
      Step(n - size, size);
      assert n + 1 - size == n - size + 1;
    }
  }

  /** Between appends the batch holds fewer than `size` rows, and the rows
      split into full batches and that remainder: the quotient and remainder
      of `n` by `size`. */
  lemma {:induction false} DivMod(n: nat, size: int)
    requires size >= 1
    ensures Remainder(n, size) < size
    ensures n == FullBatches(n, size) * size + Remainder(n, size)
    ensures FullBatches(n, size) == n / size && Remainder(n, size) == n % size
    decreases n
  {
    if n >= size {
      DivMod(n - size, size);
      var q, r := FullBatches(n - size, size), Remainder(n - size, size);
      assert n == (q + 1) * size + r;
      DivUnique(n, q + 1, r, size);
    } else {
      DivUnique(n, 0, n, size);
    }
  }

  /** A run flushes `ceil(n / size)` times: enough batches of `size` to hold
      every row, and one fewer would not do. */
  lemma FlushesCeiling(n: nat, size: int)
    requires size >= 1
    ensures Flushes(n, size) * size >= n
    ensures n > 0 ==> (Flushes(n, size) - 1) * size < n
    ensures Flushes(n, size) == (n + size - 1) / size
  {
    DivMod(n, size);
    Ceiling(n, FullBatches(n, size), Remainder(n, size), size);
  }

  /** Rounding the quotient up when there is a remainder gives the
      ceiling. */
  lemma Ceiling(n: nat, q: nat, r: nat, size: int)
    requires size >= 1 && r < size && n == q * size + r
    ensures var f := q + (if r > 0 then 1 else 0);
      && f * size >= n && (n > 0 ==> (f - 1) * size < n) && f == (n + size - 1) / size
  {
    if r > 0 {
      assert (q + 1) * size == q * size + size;
      assert n + size - 1 == (q + 1) * size + (r - 1);
      DivUnique(n + size - 1, q + 1, r - 1, size);
    } else {
      if n > 0 {
        assert q >= 1;
        assert (q - 1) * size == q * size - size;
      }
      assert n + size - 1 == q * size + (size - 1);
      DivUnique(n + size - 1, q, size - 1, size);
    }
  }

  lemma DivUnique(m: nat, q: nat, r: nat, size: int)
    requires size >= 1 && r < size && m == q * size + r
    ensures m / size == q && m % size == r
  {
    var q0, r0 := m / size, m % size;
    assert m == q0 * size + r0;
    if q0 > q {
      MulMono(1, q0 - q, size);
    } else if q0 < q {
      MulMono(1, q - q0, size);
    }
  }

  lemma MulMono(a: nat, b: nat, size: int)
    requires a <= b && size >= 1
    ensures a * size <= b * size
  {
  }
}
