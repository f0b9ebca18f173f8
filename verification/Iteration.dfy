/** Repeated application of a function, used to give loops over machine words a meaning. */
module Iteration {

  function Iterate<T>(f: T -> T, x: T, n: nat): T
    decreases n
  {
    if n == 0 then x else Iterate(f, f(x), n - 1)
  }

  lemma {:induction false} IterateAdd<T>(f: T -> T, x: T, m: nat, n: nat)
    ensures Iterate(f, x, m + n) == Iterate(f, Iterate(f, x, m), n)
    decreases m
  {
    if m > 0 {
      IterateAdd(f, f(x), m - 1, n);
    }
  }

  lemma IterateOnce<T>(f: T -> T, x: T, n: nat)
    ensures Iterate(f, x, n + 1) == f(Iterate(f, x, n))
  {
    IterateAdd(f, x, n, 1);
    assert Iterate(f, Iterate(f, x, n), 1) == Iterate(f, f(Iterate(f, x, n)), 0);
  }

  lemma IterateEight<T>(f: T -> T, x: T)
    ensures Iterate(f, x, 8) == f(f(f(f(f(f(f(f(x))))))))
  {
    assert Iterate(f, x, 8) == Iterate(f, f(f(f(f(x)))), 4);
  }

  // A function that respects an operation still respects it after n turns.
  lemma {:induction false} IterateHomomorphism<T(!new)>(f: T -> T, op: (T, T) -> T, a: T, b: T, n: nat)
    requires forall x, y :: f(op(x, y)) == op(f(x), f(y))
    ensures Iterate(f, op(a, b), n) == op(Iterate(f, a, n), Iterate(f, b, n))
    decreases n
  {
    if n > 0 {
      IterateHomomorphism(f, op, f(a), f(b), n - 1);
    }
  }

  // The sum of two functions that respect an addition respects it too.
  lemma SumOfHomomorphisms<T(!new)>(z: T -> T, f: T -> T, g: T -> T, add: (T, T) -> T, a: T, b: T)
    requires forall x :: z(x) == add(f(x), g(x))
    requires forall x, y :: f(add(x, y)) == add(f(x), f(y))
    requires forall x, y :: g(add(x, y)) == add(g(x), g(y))
    requires forall x, y :: add(x, y) == add(y, x)
    requires forall x, y, w :: add(add(x, y), w) == add(x, add(y, w))
    ensures z(add(a, b)) == add(z(a), z(b))
  {
    calc {
      z(add(a, b));
      add(add(f(a), f(b)), add(g(a), g(b)));
      add(f(a), add(f(b), add(g(a), g(b))));
      { assert add(f(b), add(g(a), g(b))) == add(add(f(b), g(a)), g(b)); }
      add(f(a), add(add(g(a), f(b)), g(b)));
      { assert add(add(g(a), f(b)), g(b)) == add(g(a), add(f(b), g(b))); }
      add(f(a), add(g(a), z(b)));
      add(add(f(a), g(a)), z(b));
      add(z(a), z(b));
    }
  }

  // Feed the pending input m into a register, one unit per turn.
  function Feed<T>(step: (T, T) -> T, shr: T -> T, x: T, m: T, n: nat): T
    decreases n
  {
    if n == 0 then x else Feed(step, shr, step(x, m), shr(m), n - 1)
  }

  lemma FeedOne<T>(step: (T, T) -> T, shr: T -> T, x: T, m: T, n: nat)
    requires n > 0
    ensures Feed(step, shr, x, m, n) == Feed(step, shr, step(x, m), shr(m), n - 1)
  {
  }

  // Two units at a time.
  lemma {:induction false} FeedDouble<T(!new)>(step: (T, T) -> T, shr: T -> T, step2: (T, T) -> T, shr2: T -> T, x: T,
                                               m: T, n: nat)
    requires forall y, k :: step2(y, k) == step(step(y, k), shr(k))
    requires forall k :: shr2(k) == shr(shr(k))
    ensures Feed(step, shr, x, m, 2 * n) == Feed(step2, shr2, x, m, n)
    decreases n
  {
    if n > 0 {
      assert Feed(step, shr, x, m, 2 * n) == Feed(step, shr, step(step(x, m), shr(m)), shr(shr(m)), 2 * (n - 1));
      FeedDouble(step, shr, step2, shr2, step2(x, m), shr2(m), n - 1);
    }
  }

  // A mirrored register runs in step with the original.
  lemma {:induction false} FeedMirrored<T(!new)>(step: (T, T) -> T, mirrored: (T, T) -> T, mirror: T -> T, shr: T -> T,
                                                 x: T, m: T, n: nat)
    requires forall y, k :: mirror(step(y, k)) == mirrored(mirror(y), k)
    ensures mirror(Feed(step, shr, x, m, n)) == Feed(mirrored, shr, mirror(x), m, n)
    decreases n
  {
    if n > 0 {
      FeedMirrored(step, mirrored, mirror, shr, step(x, m), shr(m), n - 1);
    }
  }

  // Feeding unit by unit is adding all of the input first and then running freely.
  lemma {:induction false} FeedAtOnce<T(!new)>(step: (T, T) -> T, z: T -> T, add: (T, T) -> T, shr: T -> T, x: T, m: T,
                                               n: nat)
    requires forall y, k :: add(step(y, k), shr(k)) == z(add(y, k))
    ensures add(Feed(step, shr, x, m, n), Iterate(shr, m, n)) == Iterate(z, add(x, m), n)
    decreases n
  {
    if n > 0 {
      FeedAtOnce(step, z, add, shr, step(x, m), shr(m), n - 1);
    }
  }
}
