/** Index arithmetic of a carousel whose `n` items form a ring: the "next" and
    "previous" controls step an index modulo `n`. */
module Ring {

  /** `(i + 1) % n`: the item after `i`, wrapping from the last item to the first. */
  function Next(i: int, n: int): (r: int)
    requires 0 <= i < n
    ensures 0 <= r < n
    ensures r == if i == n - 1 then 0 else i + 1
  {
    (i + 1) % n
  }

  /** `(i - 1 + n) % n`: the item before `i`, wrapping from the first item to the last. */
  function Prev(i: int, n: int): (r: int)
    requires 0 <= i < n
    ensures 0 <= r < n
    ensures r == if i == 0 then n - 1 else i - 1
  {
    (i - 1 + n) % n
  }

  /** Stepping back after stepping forward returns to the same item. */
  lemma PrevAfterNext(i: int, n: int)
    requires 0 <= i < n
    ensures Prev(Next(i, n), n) == i
  {
  }

  /** Stepping forward after stepping back returns to the same item. */
  lemma NextAfterPrev(i: int, n: int)
    requires 0 <= i < n
    ensures Next(Prev(i, n), n) == i
  {
  }

  /** The index reached by pressing "next" `k` times from `i`. */
  function NextN(i: int, n: int, k: nat): (r: int)
    requires 0 <= i < n
    ensures 0 <= r < n
  {
    if k == 0 then i else Next(NextN(i, n, k - 1), n)
  }

  /** Within one turn of the ring, pressing "next" `k` times advances the index
      by `k`, wrapping past the last item once. */
  lemma {:induction false} NextNIsShift(i: int, n: int, k: nat)
    requires 0 <= i < n && k <= n
    ensures NextN(i, n, k) == if i + k < n then i + k else i + k - n
  {
    if k > 0 {
      NextNIsShift(i, n, k - 1);
    }
  }

  /** Pressing "next" `a` times and then `b` times is pressing it `a + b` times. */
  lemma {:induction false} NextNCompose(i: int, n: int, a: nat, b: nat)
    requires 0 <= i < n
    ensures NextN(NextN(i, n, a), n, b) == NextN(i, n, a + b)
  {
    if b > 0 {
      NextNCompose(i, n, a, b - 1);
    }
  }

  /** Pressing "next" once per item brings the carousel back to where it started. */
  lemma FullCycle(i: int, n: int)
    requires 0 <= i < n
    ensures NextN(i, n, n) == i
  {
    NextNIsShift(i, n, n);
  }

  /** So the effect of `k` presses repeats with period `n`. */
  lemma NextNPeriodic(i: int, n: int, k: nat)
    requires 0 <= i < n
    ensures NextN(i, n, k + n) == NextN(i, n, k)
  {
    NextNCompose(i, n, n, k);
    FullCycle(i, n);
  }
}
