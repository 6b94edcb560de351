/** Where the next and the last position of the heap are found: the bits of the position, taken from the
    low end and put in reverse order, spell the way down from the root. */
module HeapPath {

  /** The position reached from `pos` by `k` turns, the next one in the low bit of `path`. */
  function Follow(pos: nat, path: nat, k: nat): nat
    decreases k
  {
    if k == 0 then pos else Follow(2 * pos + path % 2, path / 2, k - 1)
  }

  function Power(k: nat): (n: nat)
    ensures n >= 1
  {
    if k == 0 then 1 else 2 * Power(k - 1)
  }

  /** The way to a position is through the one above it. */
  lemma {:induction false} FollowAbove(pos: nat, path: nat, k: nat)
    requires pos >= 1 && k >= 1
    ensures pos <= Follow(pos, path, k) / 2
    decreases k
  {
    if k > 1 {
      FollowAbove(2 * pos + path % 2, path / 2, k - 1);
    }
  }

  /** The loop that computes the path of position `n`: it leads from the root to `n`, its `k` bits fit into
      an unsigned int whenever `n` does, and it is as long as the heap is high. */
  method PathTo(n0: nat) returns (path: nat, k: nat)
    requires n0 >= 1
    ensures Follow(1, path, k) == n0
    ensures path < Power(k) <= n0 < 2 * Power(k)
  {
    path, k := 0, 0;
    var n := n0;
    while n >= 2
      invariant n >= 1 && Follow(n, path, k) == n0
      invariant path < Power(k) && n * Power(k) <= n0 < (n + 1) * Power(k)
    {
      FollowBack(n, path, k);
      Halve(n, Power(k), n0);
      path := path * 2 + n % 2;
      k := k + 1;
      n := n / 2;
    }
  }

  lemma FollowBack(n: nat, path: nat, k: nat)
    ensures Follow(n / 2, path * 2 + n % 2, k + 1) == Follow(n, path, k)
  {
    assert (path * 2 + n % 2) % 2 == n % 2 && (path * 2 + n % 2) / 2 == path;
  }

  lemma Halve(n: nat, p: nat, n0: nat)
    requires n * p <= n0 < (n + 1) * p
    ensures (n / 2) * (2 * p) <= n0 < (n / 2 + 1) * (2 * p)
  {
    assert n == 2 * (n / 2) + n % 2;
    assert (n / 2) * (2 * p) == (2 * (n / 2)) * p <= n * p;
    assert (n / 2 + 1) * (2 * p) == (2 * (n / 2) + 2) * p >= (n + 1) * p;
  }
}
