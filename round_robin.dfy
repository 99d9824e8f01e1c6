/** The worker choice of `Acceptor.nextWorker`: an `AtomicInteger` counter,
    read and incremented on every call, taken modulo the number of workers.
    The counter is a Java `int`, so after 2^31 calls it wraps to a negative
    value, and Java's `%` of a negative dividend is negative. */
module RoundRobin {
  import opened JavaBytes
  import opened Wrappers
  import opened JavaInts

  /** The worker slot `workers[index % workers.length]` selects among `n`
      workers when the counter holds `index`, as written; `None` when that
      throws: `ArithmeticException` for no workers, and
      `ArrayIndexOutOfBoundsException` for a negative remainder. */
  function Pick(n: nat, index: int): (slot: Option<nat>)
    ensures slot.Some? ==> slot.value < n
    ensures n > 0 && index >= 0 ==> slot == Some(index % n)
  {
    if n == 0 then None
    else
      var r := JavaRem(index, n);
      if r < 0 then None else Some(r)
  }

  /** The choice with `Math.floorMod(index, workers.length)` in place of
      `%`: a slot for every value of the counter whenever there is a worker,
      the same slot as `Pick` whenever the counter is not negative. */
  function FloorPick(n: nat, index: int): (slot: Option<nat>)
    ensures slot.Some? <==> n > 0
    ensures slot.Some? ==> slot.value < n
    ensures index >= 0 ==> slot == Pick(n, index)
  {
    if n == 0 then None else Some(FloorMod(index, n))
  }

  /** The slots of the first `calls` calls of `nextWorker` on a new
      acceptor: call `k` sees the counter after `k` wrapping increments. */
  function Picks(n: nat, calls: nat): (s: seq<Option<nat>>)
    ensures |s| == calls
  {
    if calls == 0 then [] else Picks(n, calls - 1) + [Pick(n, WrapInt(calls - 1))]
  }

  /** How many of `picks` chose slot `w`. */
  function Count(picks: seq<Option<nat>>, w: nat): (c: nat)
    ensures c <= |picks|
  {
    if picks == [] then 0
    else Count(picks[..|picks| - 1], w) + (if picks[|picks| - 1] == Some(w) then 1 else 0)
  }

  /** Call `k` gets the slot of the counter value `k`, wrapped. */
  lemma {:induction false} PickAt(n: nat, calls: nat, k: nat)
    requires k < calls
    ensures Picks(n, calls)[k] == Pick(n, WrapInt(k))
  {
    if k < calls - 1 {
      PickAt(n, calls - 1, k);
    }
  }

  /** Until the counter overflows, call `k` is handed to worker `k mod N`. */
  lemma RoundRobinOrder(n: nat, calls: nat)
    requires n > 0 && calls <= INT_MAX + 1
    ensures forall k :: 0 <= k < calls ==> Picks(n, calls)[k] == Some(k % n)
  {
    forall k | 0 <= k < calls
      ensures Picks(n, calls)[k] == Some(k % n)
    {
      PickAt(n, calls, k);
    }
  }

  /** A positive multiple of a positive number is at least that number. */
  lemma {:induction false} MultipleAtLeast(k: int, n: int)
    requires k >= 1 && n > 0
    ensures k * n >= n
  {
    if k > 1 {
      MultipleAtLeast(k - 1, n);
      assert k * n == (k - 1) * n + n;
    }
  }

  /** Division by a positive divisor has one quotient and remainder. */
  lemma DivModUnique(a: int, n: int, q: int, r: int)
    requires n > 0 && 0 <= r < n && a == q * n + r
    ensures a / n == q && a % n == r
  {
    var q', r' := a / n, a % n;
    assert a == q' * n + r';
    if q' > q {
      assert (q' - q) * n == q' * n - q * n;
      MultipleAtLeast(q' - q, n);
    } else if q' < q {
      assert (q - q') * n == q * n - q' * n;
      MultipleAtLeast(q - q', n);
    }
  }

  /** The quotient and remainder of `m + 1` from those of `m`. */
  lemma DivModSucc(m: nat, n: nat)
    requires n > 0
    ensures m % n == n - 1 ==> (m + 1) / n == m / n + 1 && (m + 1) % n == 0
    ensures m % n < n - 1 ==> (m + 1) / n == m / n && (m + 1) % n == m % n + 1
  {
    var q, r := m / n, m % n;
    assert m == q * n + r;
    if r == n - 1 {
      DivModUnique(m + 1, n, q + 1, 0);
    } else {
      DivModUnique(m + 1, n, q, r + 1);
    }
  }

  /** Before the counter overflows, the first `calls` clients are spread
      evenly: worker `w` has `calls / N` of them, one more when `w` is below
      `calls mod N`. */
  lemma {:induction false} Balanced(n: nat, calls: nat, w: nat)
    requires n > 0 && calls <= INT_MAX + 1 && w < n
    ensures Count(Picks(n, calls), w) == calls / n + (if w < calls % n then 1 else 0)
  {
    if calls > 0 {
      var m := calls - 1;
      Balanced(n, m, w);
      var s := Picks(n, calls);
      assert s[..m] == Picks(n, m);
      assert s[m] == Some(m % n);
      DivModSucc(m, n);
    }
  }

  /** Every worker's share of the first `calls` clients is the floor or the
      ceiling of `calls / N`; with two or more workers and more clients than
      workers, every worker has some and none has them all. */
  lemma {:induction false} NoWorkerTakesAll(n: nat, calls: nat, w: nat)
    requires n > 0 && calls <= INT_MAX + 1 && w < n
    ensures calls / n <= Count(Picks(n, calls), w) <= calls / n + 1
    ensures 2 <= n < calls ==> 0 < Count(Picks(n, calls), w) < calls
  {
    Balanced(n, calls, w);
    if 2 <= n < calls {
      ManyClientsPerWorker(calls, n);
    }
  }

  /** With more clients than workers, and two or more workers, the quotient
      is at least one and one more than it is still below the clients. */
  lemma ManyClientsPerWorker(calls: nat, n: nat)
    requires 2 <= n < calls
    ensures 1 <= calls / n && calls / n + 1 < calls
  {
    var q, r := calls / n, calls % n;
    assert calls == q * n + r;
    MultipleAtLeast(q, n - 1);
    assert q * n == q * (n - 1) + q;
  }

  /** As written, call 2^31 meets the counter at `Integer.MIN_VALUE`, whose
      remainder by 3 is -2: with three workers the `nextWorker` after 2^31
      accepted clients throws, where `Math.floorMod` would pick worker 1. */
  lemma {:induction false} CounterOverflowBreaksPick()
    ensures Picks(3, 0x8000_0001)[0x8000_0000] == None
    ensures FloorPick(3, WrapInt(0x8000_0000)) == Some(1)
  {
    PickAt(3, 0x8000_0001, 0x8000_0000);
    assert WrapInt(0x8000_0000) == INT_MIN;
  }
}
