# mpool `Pool<T>` in Dafny

A model of the generic object pool `Pool<T>` (src/index.ts): a LIFO buffer of
slots (`_pool`) plus a count of available objects at its front (`_count`),
with the operations construction, `get`, `put`, `fit` and the `length` and
`inner` accessors.

The model is functional. A `Pool` value records the slots (`None` for
`null`), the count, the public `preferredSize`, a storage generation (bumped
exactly when `fit` replaces the backing array, so "same array reference" is
equality of generations), the number of `init` calls so far and the log of
objects passed to `free`. Objects are opaque ids. The user's `init` is a
fresh-id generator: its k-th call, counting from 0, yields id k. The user's
`free` appends its argument to the log. `Stack(p)` is the abstract view used
throughout: the available objects, bottom first.

Files:
- `wrappers.dfy` — `Option`, used for slots.
- `pool.dfy` — module `ObjectPool`: the state, the slot invariants `Valid`
  (every slot below the count holds an object, which makes the casts in
  `get` and `fit` sound) and `Cleared` (every slot from the count up is
  empty), and the operations.
- `pool_laws.dfy` — module `PoolLaws`: round trips, recycling without
  allocation, the effect of `fit`, the scenarios the repository's tests
  exercise (stated for any preferred size), and the invariants over any
  sequence of operations.

The repository's tests construct pools as `new Pool(() => ({}), 100)` and
`new Pool(() => ({}), 1)`: the number lands in the `free` position, so
`preferredSize` keeps its default of 100 in every test, including the one
about reusing objects. The laws drawn from the tests are therefore stated
for an arbitrary preferred size rather than for 1. The same slip breaks the
"Shrinks" test (src/lib.test.ts:26-38): there `free` is the number 100, so
the first call `this.free(oldPool[100])` (src/index.ts:75) throws a
`TypeError`. At that point `_pool` has already been replaced
(src/index.ts:69) while `_count` is still 200 (src/index.ts:78 is never
reached), so the test cannot reach its `length == 100` expectation; under
the TypeScript compiler the argument is a type error as well.
`PoolLaws.ShrinkAfterPuts` proves that test's expectations for a `free`
that can be called.

`put` writes one slot past the end of a full array (src/index.ts:55); the
model appends one slot.

## Model

| member | source | states |
|---|---|---|
| ObjectPool.Fill | src/index.ts:14-17 | the fill loop leaves exactly `n` slots, slot i holding the result of the i-th `init` call |
| ObjectPool.New | src/index.ts:5-19 | construction (with `preferredSize` 100 unless given) calls `init` exactly `preferredSize` times, keeps every result in call order, sets `length` to `preferredSize`, frees nothing, and satisfies both slot invariants |
| ObjectPool.Length | src/index.ts:33 | `length` is the number of available objects on the stack |
| ObjectPool.Inner | src/index.ts:26-28 | the storage view covers at least `length` slots and every one of them holds the corresponding available object, never `null` |
| ObjectPool.SetPreferredSize | src/index.ts:12 | assigning `preferredSize` changes nothing else: same available objects, same storage, no callback calls |
| ObjectPool.Get | src/index.ts:40-49 | on a non-empty pool: pops and returns the top object, clears its slot, leaves every other slot alone and does not call `init`; on an empty pool: returns the next `init` id, hence one no earlier `init` call returned, and leaves count and storage alone; both invariants are kept |
| ObjectPool.Put | src/index.ts:54-57 | pushes the object on top of the available objects, growing the array by one slot only when it is full, without touching other slots, the storage reference or either callback |
| ObjectPool.Release | src/index.ts:74-77 | the release loop calls `free` once on each object at indices `i` to `end - 1`, in ascending order |
| ObjectPool.Fit | src/index.ts:66-80 | with at most `preferredSize` objects the pool is returned unchanged; otherwise the first `preferredSize` objects are kept in order in a new array of that size, the rest are freed in ascending index order, the storage generation advances by one, and `length` becomes `min(length, preferredSize)` |
| PoolLaws.GetAfterPut | src/index.ts:40-57 | `get` after `put(x)` returns `x` and restores the available objects, count, storage reference and callback counts; the whole state when no growth was needed |
| PoolLaws.PutAfterGet | src/index.ts:40-57 | `put` of the object a `get` took from a non-empty pool restores the pool exactly |
| PoolLaws.Rounds | src/index.ts:40-57 | after `k` rounds of `put(get())` the available objects are unchanged, or are the one new object when the pool started empty |
| PoolLaws.RoundsInitCalls | src/index.ts:40-57 | rounds of `put(get())` call `init` at most once, and only when the pool started empty; they never call `free` |
| PoolLaws.FreshPoolRecycles | src/lib.test.ts:5-15 | a freshly built non-empty pool serves any number of `put(get())` rounds with `init` called exactly `preferredSize` times in all |
| PoolLaws.FreshPoolReusesObject | src/lib.test.ts:40-45 | getting an object from a fresh pool and putting it back makes the next `get` return the same object |
| PoolLaws.PutAllPushes | src/index.ts:54-57 | a sequence of `put`s stacks the objects on top in order and calls neither callback nor replaces the storage |
| PoolLaws.FitPartitions | src/index.ts:66-80 | the objects `fit` keeps followed by the ones it frees are exactly the objects available before, in order, each freed once; the free log only grows |
| PoolLaws.FitIdempotent | src/index.ts:66-67 | a second `fit` changes nothing |
| PoolLaws.FreshPoolDoesNotShrink | src/lib.test.ts:17-24 | `fit` on a freshly built pool keeps the same storage and frees nothing; a pool built with the default size holds 100 objects |
| PoolLaws.ShrinkAfterPuts | src/lib.test.ts:26-38 | after building a pool and putting extra objects, `fit` returns `length` to the preferred size, keeps the objects `init` made, frees exactly the extra objects in put order and replaces the storage; these are the test's expectations for a callable `free` (the test itself passes the number 100 as `free`) |
| PoolLaws.RunPreservesInvariants | src/index.ts:40-80 | over any sequence of `get`, `put`, `fit` and `preferredSize` assignments the slot invariants hold, `init` calls, `free` calls and the storage generation only accumulate, and without `fit` nothing is freed and the storage is never replaced |
| PoolLaws.ReachableIsValid | src/index.ts:5-80 | every pool reachable from construction satisfies both slot invariants, so `get` and `fit` never meet `null` below the count |

## Left out

- JavaScript array mechanics: `Array(n)` throwing a `RangeError` for a negative, fractional or too large size (n >= 2^32), whereas the model takes `preferredSize` as an unbounded natural number; and sparse arrays; `put` is only modelled on states satisfying the slot invariant, where it writes at most one slot past the end.
- Exceptions raised by the user's `init` or `free`: they propagate uncaught and the state after a failure part-way through `fit` is unspecified, so every call is modelled as returning normally.
- Reentrant callbacks (for example `free` calling `put` on the same pool) and concurrent use.
- The user's `init` and `free` themselves: `init` is modelled as a counter-based fresh-id generator and `free` as an append to a log, since the pool only relies on calling them.
- Object reference identity: objects are ids and array identity is the storage generation.
- Views of earlier arrays: `inner` returns the live `_pool` without copying, so a view taken before `fit` still reaches the old array and sees the slots `fit` nulls (src/index.ts:72, :76). The model treats `inner` as a snapshot value; aliasing between views and that nulling are not modelled.
- ObjectPool.Inner: states nothing about slots at or above `length`, whose contents the accessor does not promise (the model's `Cleared` invariant shows they are empty in this implementation).
- Ownership accounting across the caller (every object handed out is held, returned or freed once): `put` performs no provenance or duplicate check, so this is the caller's discipline; the model covers the pool's share of it as `PoolLaws.FitPartitions`.
