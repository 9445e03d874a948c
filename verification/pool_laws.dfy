/** Laws relating the pool's operations to one another: the LIFO round
    trips, reuse without allocation, the effect of `fit` on kept and freed
    objects, and the slot invariant over any sequence of operations. */
module PoolLaws {
  import opened ObjectPool

  /** `put(x)` followed by `get()` hands back `x` and leaves the available
      objects, the storage reference and both callbacks' counts as before.
      When `put` did not have to grow the array, the whole state is restored. */
  lemma GetAfterPut(p: Pool, x: Obj)
    requires Valid(p)
    ensures Get(Put(p, x)).obj == x
    ensures Stack(Get(Put(p, x)).pool) == Stack(p)
    ensures Get(Put(p, x)).pool.count == p.count
    ensures Get(Put(p, x)).pool.inits == p.inits
    ensures Get(Put(p, x)).pool.freed == p.freed
    ensures Get(Put(p, x)).pool.generation == p.generation
    ensures Cleared(p) && p.count < |p.slots| ==> Get(Put(p, x)).pool == p
  {
  }

  /** Returning the object `get()` just took from a non-empty pool restores
      the pool exactly, storage reference included. */
  lemma PutAfterGet(p: Pool)
    requires Valid(p) && p.count > 0
    ensures Put(Get(p).pool, Get(p).obj) == p
  {
  }

  /** `k` rounds of `pool.put(pool.get())`. */
  function Rounds(p: Pool, k: nat): (r: Pool)
    requires Valid(p)
    ensures Valid(r)
    ensures Stack(r) == if p.count == 0 && k > 0 then [p.inits] else Stack(p)
    decreases k
  {
    if k == 0 then p
    else
      var t := Get(p);
      Rounds(Put(t.pool, t.obj), k - 1)
  }

  /** Recycling never allocates: after any number of `put(get())` rounds the
      pool has called `init` at most once more, and only if it started empty. */
  lemma {:induction false} RoundsInitCalls(p: Pool, k: nat)
    requires Valid(p)
    ensures Rounds(p, k).inits == p.inits + (if p.count == 0 && k > 0 then 1 else 0)
    ensures Rounds(p, k).freed == p.freed
    ensures p.count > 0 ==> Rounds(p, k) == p
    decreases k
  {
    if k > 0 {
      var t := Get(p);
      var q := Put(t.pool, t.obj);
      if p.count > 0 {
        PutAfterGet(p);
        assert q == p;
      } else {
        assert q.count == 1 && q.inits == p.inits + 1;
      }
      RoundsInitCalls(q, k - 1);
    }
  }

  /** A freshly built non-empty pool serves any number of `put(get())` rounds
      without calling `init` beyond the `preferredSize` calls made while
      building it. */
  lemma FreshPoolRecycles(n: nat, k: nat)
    requires n > 0
    ensures Rounds(New(n), k).inits == n
    ensures Rounds(New(n), k) == New(n)
  {
    RoundsInitCalls(New(n), k);
  }

  /** Getting an object from a fresh pool and putting it back makes the next
      `get()` return that very object, whatever the preferred size. */
  lemma FreshPoolReusesObject(n: nat)
    ensures Get(Put(Get(New(n)).pool, Get(New(n)).obj)).obj == Get(New(n)).obj
  {
  }

  /** Puts every object of `xs`, first to last. */
  function PutAll(p: Pool, xs: seq<Obj>): (r: Pool)
    requires Valid(p)
    ensures Valid(r)
    decreases |xs|
  {
    if xs == [] then p else PutAll(Put(p, xs[0]), xs[1..])
  }

  /** Putting a sequence of objects stacks them on top, in order, and calls
      neither callback nor replaces the storage. */
  lemma {:induction false} PutAllPushes(p: Pool, xs: seq<Obj>)
    requires Valid(p)
    ensures Stack(PutAll(p, xs)) == Stack(p) + xs
    ensures PutAll(p, xs).count == p.count + |xs|
    ensures PutAll(p, xs).preferredSize == p.preferredSize
    ensures PutAll(p, xs).generation == p.generation
    ensures PutAll(p, xs).inits == p.inits && PutAll(p, xs).freed == p.freed
    decreases |xs|
  {
    if xs != [] {
      var q := Put(p, xs[0]);
      PutAllPushes(q, xs[1..]);
      assert Stack(p) + xs == Stack(q) + xs[1..] by {
        assert xs == [xs[0]] + xs[1..];
      }
    }
  }

  /** `fit()` partitions the available objects: the kept ones followed by
      the ones it freed are exactly the objects available before, in order,
      and the free log only grows. */
  lemma FitPartitions(p: Pool)
    requires Valid(p)
    ensures p.freed <= Fit(p).freed
    ensures Stack(Fit(p)) + Fit(p).freed[|p.freed|..] == Stack(p)
    ensures |Fit(p).freed| - |p.freed| == p.count - Fit(p).count
  {
  }

  /** A second `fit()` changes nothing: not the contents, not the storage
      reference, and no further `free` calls. */
  lemma FitIdempotent(p: Pool)
    requires Valid(p)
    ensures Fit(Fit(p)) == Fit(p)
  {
  }

  /** A freshly built pool already has its preferred size, so `fit()` keeps
      the same storage and frees nothing; a pool built with the default
      size holds 100 objects. */
  lemma FreshPoolDoesNotShrink(n: nat)
    ensures Fit(New(n)) == New(n)
    ensures Length(New()) == 100 && Fit(New()) == New()
  {
  }

  /** Building a pool, putting extra objects and calling `fit()` brings the
      length back to the preferred size, keeps the objects `init` made,
      frees exactly the extra objects in the order they were put, and
      replaces the storage. */
  lemma ShrinkAfterPuts(n: nat, xs: seq<Obj>)
    requires |xs| > 0
    ensures var p := PutAll(New(n), xs);
      && Length(p) == n + |xs|
      && Length(Fit(p)) == n
      && Stack(Fit(p)) == Ids(n)
      && Fit(p).freed == xs
      && Fit(p).generation == p.generation + 1
  {
    var p := PutAll(New(n), xs);
    PutAllPushes(New(n), xs);
    assert Stack(p)[..n] == Ids(n);
    assert Stack(p)[n..] == xs;
  }

  /** One operation a caller can perform on a pool. */
  datatype Op = GetOp | PutOp(x: Obj) | FitOp | SetPreferredSizeOp(n: nat)

  function Step(p: Pool, op: Op): (q: Pool)
    requires Valid(p)
    ensures Valid(q)
  {
    match op
    case GetOp => Get(p).pool
    case PutOp(x) => Put(p, x)
    case FitOp => Fit(p)
    case SetPreferredSizeOp(n) => SetPreferredSize(p, n)
  }

  /** Performs `ops` in order. */
  function Run(p: Pool, ops: seq<Op>): (r: Pool)
    requires Valid(p)
    ensures Valid(r)
    decreases |ops|
  {
    if ops == [] then p else Run(Step(p, ops[0]), ops[1..])
  }

  /** Over any sequence of operations the slot invariants hold, `init` calls,
      `free` calls and storage generations only accumulate, and without a
      `fit` nothing is freed and the storage is never replaced. */
  lemma {:induction false} RunPreservesInvariants(p: Pool, ops: seq<Op>)
    requires Valid(p)
    ensures Cleared(p) ==> Cleared(Run(p, ops))
    ensures p.inits <= Run(p, ops).inits
    ensures p.freed <= Run(p, ops).freed
    ensures p.generation <= Run(p, ops).generation
    ensures (forall i :: 0 <= i < |ops| ==> !ops[i].FitOp?) ==>
      Run(p, ops).freed == p.freed && Run(p, ops).generation == p.generation
    decreases |ops|
  {
    if ops != [] {
      var q := Step(p, ops[0]);
      RunPreservesInvariants(q, ops[1..]);
      if ops[0].FitOp? {
        FitPartitions(p);
      }
    }
  }

  /** Every pool reachable from construction satisfies both slot
      invariants, so neither `get` nor `fit` ever meets a `null` below the
      count. */
  lemma ReachableIsValid(n: nat, ops: seq<Op>)
    ensures Valid(Run(New(n), ops)) && Cleared(Run(New(n), ops))
    ensures Run(New(n), ops).inits >= n
  {
    RunPreservesInvariants(New(n), ops);
  }
}
