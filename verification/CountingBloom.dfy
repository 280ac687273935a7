/** core/store/counting_bloom.go: a counting Bloom filter with 8-bit saturating counters. */
module CountingBloom {
  import opened Common


  /** Bucket count, hash count and the FNV-derived pair of 64-bit hashes (a parameter here). */
  datatype Shape = Shape(m: nat, k: nat, hash: Bytes -> (nat, nat)) {
    predicate Idle() { m == 0 || k == 0 }

    /** Bucket of the i-th hash, in wrapping 64-bit arithmetic. */
    function Slot(x: Bytes, i: nat): (b: nat)
      requires m > 0
      ensures b < m
    {
      (hash(x).0 + i * hash(x).1) % TWO64 % m
    }

    /** How many of the first n hashes of x land in bucket b. */
    function Hits(x: Bytes, b: nat, n: nat): (h: nat)
      requires m > 0
      ensures h <= n
    {
      if n == 0 then 0 else Hits(x, b, n - 1) + (if Slot(x, n - 1) == b then 1 else 0)
    }

    /** Hits of a whole bag of items, listed in any order. */
    function Total(held: seq<Bytes>, b: nat): nat
      requires m > 0
    {
      if held == [] then 0 else Hits(held[0], b, k) + Total(held[1..], b)
    }
  }

  const STUCK := 255

  function Raise(c: byte, h: nat): byte { Min(STUCK, c + h) }

  function Lower(c: byte, h: nat): byte { if c == STUCK then STUCK else Max(0, c - h) }

  /** Counters after Add / Remove of x. */
  function Added(f: Shape, cs: Bytes, x: Bytes): (r: Bytes)
    ensures |r| == |cs|
  {
    if x == [] || f.Idle() then cs else seq(|cs|, b requires 0 <= b < |cs| => Raise(cs[b], f.Hits(x, b, f.k)))
  }

  function Removed(f: Shape, cs: Bytes, x: Bytes): (r: Bytes)
    ensures |r| == |cs|
  {
    if x == [] || f.Idle() then cs else seq(|cs|, b requires 0 <= b < |cs| => Lower(cs[b], f.Hits(x, b, f.k)))
  }

  predicate Tests(f: Shape, cs: Bytes, x: Bytes)
    requires |cs| == f.m
  {
    x == [] || f.Idle() || forall i :: 0 <= i < f.k ==> cs[f.Slot(x, i)] != 0
  }

  /** Every counter is stuck at 255 or is the exact number of hash hits of the held bag. */
  ghost predicate Exact(f: Shape, cs: Bytes, held: seq<Bytes>) {
    && |cs| == f.m
    && (forall b :: 0 <= b < f.m ==> cs[b] == STUCK || cs[b] == f.Total(held, b))
    && (forall i :: 0 <= i < |held| ==> held[i] != [])
  }

  lemma {:induction false} TotalAppend(f: Shape, a: seq<Bytes>, c: seq<Bytes>, b: nat)
    requires f.m > 0
    ensures f.Total(a + c, b) == f.Total(a, b) + f.Total(c, b)
  {
    if a == [] {
      assert a + c == c;
    } else {
      assert (a + c)[1..] == a[1..] + c;
      TotalAppend(f, a[1..], c, b);
    }
  }

  /** Adding keeps the counters exact, also when one item hits a bucket twice. */
  lemma AddKeepsExact(f: Shape, cs: Bytes, held: seq<Bytes>, x: Bytes)
    requires Exact(f, cs, held)
    ensures Exact(f, Added(f, cs, x), if x == [] then held else held + [x])
  {
    if x != [] {
      forall b | 0 <= b < f.m
        ensures Added(f, cs, x)[b] == STUCK || Added(f, cs, x)[b] == f.Total(held + [x], b)
      {
        TotalAppend(f, held, [x], b);
        assert f.Total([x], b) == f.Hits(x, b, f.k);
        if f.Idle() {
          assert f.Hits(x, b, f.k) == 0;
        }
      }
    }
  }

  lemma TotalDrop(f: Shape, held: seq<Bytes>, i: nat, b: nat)
    requires f.m > 0 && i < |held|
    ensures f.Total(held, b) == f.Total(Drop(held, i), b) + f.Hits(held[i], b, f.k)
  {
    assert held == held[..i] + ([held[i]] + held[i + 1..]);
    TotalAppend(f, held[..i], [held[i]] + held[i + 1..], b);
    TotalAppend(f, held[..i], held[i + 1..], b);
    assert ([held[i]] + held[i + 1..])[1..] == held[i + 1..];
  }

  /** Removing an item that is held keeps the counters exact for what is left. */
  lemma RemoveKeepsExact(f: Shape, cs: Bytes, held: seq<Bytes>, i: nat)
    requires Exact(f, cs, held) && i < |held|
    ensures Exact(f, Removed(f, cs, held[i]), Drop(held, i))
  {
    var x := held[i];
    forall b | 0 <= b < f.m
      ensures Removed(f, cs, x)[b] == STUCK || Removed(f, cs, x)[b] == f.Total(Drop(held, i), b)
    {
      TotalDrop(f, held, i, b);
      if f.Idle() {
        assert f.Hits(x, b, f.k) == 0;
      }
    }
  }

  lemma {:induction false} SlotIsHit(f: Shape, x: Bytes, i: nat, n: nat)
    requires f.m > 0 && i < n
    ensures f.Hits(x, f.Slot(x, i), n) >= 1
  {
    if i < n - 1 {
      SlotIsHit(f, x, i, n - 1);
    }
  }

  /** Exact counters never deny a held item. */
  lemma NoFalseNegatives(f: Shape, cs: Bytes, held: seq<Bytes>, x: Bytes)
    requires Exact(f, cs, held) && x in held
    ensures Tests(f, cs, x)
  {
    if !f.Idle() {
      var j :| 0 <= j < |held| && held[j] == x;
      forall i | 0 <= i < f.k ensures cs[f.Slot(x, i)] != 0 {
        TotalDrop(f, held, j, f.Slot(x, i));
        SlotIsHit(f, x, i, f.k);
      }
    }
  }

  // ------------------------------------------- removing without a check

  /** The filter denies none of these items. */
  ghost predicate Shows(f: Shape, cs: Bytes, items: set<Bytes>)
    requires |cs| == f.m
  {
    forall y :: y in items ==> Tests(f, cs, y)
  }

  /** Removing `x` drains no bucket of these items: what a caller can read off the counters before the call. */
  ghost predicate Spares(f: Shape, cs: Bytes, x: Bytes, items: set<Bytes>)
    requires |cs| == f.m
  {
    x != [] && !f.Idle() ==>
      forall y, i :: y in items && y != [] && 0 <= i < f.k ==>
        cs[f.Slot(y, i)] == STUCK || cs[f.Slot(y, i)] > f.Hits(x, f.Slot(y, i), f.k)
  }

  /** One Remove, of an item that may or may not be held, on counters in any state. */
  lemma RemoveShowsIff(f: Shape, cs: Bytes, x: Bytes, items: set<Bytes>)
    requires |cs| == f.m && Shows(f, cs, items)
    ensures Shows(f, Removed(f, cs, x), items) <==> Spares(f, cs, x, items)
  {
    var after := Removed(f, cs, x);
    if Shows(f, after, items) && x != [] && !f.Idle() {
      forall y, i | y in items && y != [] && 0 <= i < f.k
        ensures cs[f.Slot(y, i)] == STUCK || cs[f.Slot(y, i)] > f.Hits(x, f.Slot(y, i), f.k)
      {
        assert Tests(f, after, y);
        assert after[f.Slot(y, i)] != 0;
      }
    }
  }

  /** Adding hides nothing and shows the added item. */
  lemma AddShows(f: Shape, cs: Bytes, x: Bytes, items: set<Bytes>)
    requires |cs| == f.m && Shows(f, cs, items)
    ensures Shows(f, Added(f, cs, x), items + {x})
  {
    if x != [] && !f.Idle() {
      forall i | 0 <= i < f.k ensures Added(f, cs, x)[f.Slot(x, i)] != 0 {
        SlotIsHit(f, x, i, f.k);
      }
      forall y | y in items ensures Tests(f, Added(f, cs, x), y) {
        assert Tests(f, cs, y);
      }
    }
  }

  // ------------------------------------------------------------- runs

  datatype Op = Add(x: Bytes) | Remove(x: Bytes)

  function IndexOf(held: seq<Bytes>, x: Bytes): (i: nat)
    requires x in held
    ensures i < |held| && held[i] == x
  {
    if held[0] == x then 0 else 1 + IndexOf(held[1..], x)
  }

  function HeldAfter(ops: seq<Op>): seq<Bytes> {
    if ops == [] then []
    else
      var before := HeldAfter(ops[..|ops| - 1]);
      match ops[|ops| - 1]
      case Add(x) => if x == [] then before else before + [x]
      case Remove(x) => if x in before then Drop(before, IndexOf(before, x)) else before
  }

  function CountersAfter(f: Shape, ops: seq<Op>): (r: Bytes)
    ensures |r| == f.m
  {
    if ops == [] then seq(f.m, b => 0)
    else
      var before := CountersAfter(f, ops[..|ops| - 1]);
      match ops[|ops| - 1]
      case Add(x) => Added(f, before, x)
      case Remove(x) => Removed(f, before, x)
  }

  /** Nothing held is denied at any point of the run. */
  ghost predicate AlwaysShows(f: Shape, ops: seq<Op>) {
    forall n :: 0 <= n <= |ops| ==> ShowsAfter(f, ops, n)
  }

  ghost predicate ShowsAfter(f: Shape, ops: seq<Op>, n: nat)
    requires n <= |ops|
  {
    Shows(f, CountersAfter(f, ops[..n]), Elems(HeldAfter(ops[..n])))
  }

  /** Each Remove spares what is still held after it. */
  ghost predicate Guarded(f: Shape, ops: seq<Op>) {
    forall n :: 0 <= n < |ops| && ops[n].Remove? ==> GuardAt(f, ops, n)
  }

  ghost predicate GuardAt(f: Shape, ops: seq<Op>, n: nat)
    requires n < |ops|
  {
    Spares(f, CountersAfter(f, ops[..n]), ops[n].x, Elems(HeldAfter(ops[..n + 1])))
  }

  lemma StepShows(f: Shape, ops: seq<Op>, n: nat)
    requires n < |ops| && ShowsAfter(f, ops, n)
    ensures ShowsAfter(f, ops, n + 1) <==> (ops[n].Remove? ==> GuardAt(f, ops, n))
  {
    var cs, held, held' := CountersAfter(f, ops[..n]), HeldAfter(ops[..n]), HeldAfter(ops[..n + 1]);
    assert ops[..n + 1][..n] == ops[..n];
    match ops[n] {
      case Add(x) =>
        AddShows(f, cs, x, Elems(held));
        assert Elems(held') <= Elems(held) + {x};
      case Remove(x) =>
        assert Elems(held') <= Elems(held);
        RemoveShowsIff(f, cs, x, Elems(held'));
    }
  }

  /** For every run, removals of items that are not held included: a held item is never denied exactly when every
      Remove passes its guard. */
  lemma {:induction false} AlwaysShowsIff(f: Shape, ops: seq<Op>)
    ensures AlwaysShows(f, ops) <==> Guarded(f, ops)
  {
    hide ShowsAfter, GuardAt;
    assert ShowsAfter(f, ops, 0) by { NothingHeld(f, ops); }
    if AlwaysShows(f, ops) {
      forall n | 0 <= n < |ops| && ops[n].Remove? ensures GuardAt(f, ops, n) {
        StepShows(f, ops, n);
      }
    }
    if Guarded(f, ops) {
      GuardedShows(f, ops, |ops|);
    }
  }

  lemma NothingHeld(f: Shape, ops: seq<Op>)
    ensures ShowsAfter(f, ops, 0)
  {
  }

  lemma {:induction false} GuardedShows(f: Shape, ops: seq<Op>, n: nat)
    requires n <= |ops| && Guarded(f, ops)
    ensures forall i :: 0 <= i <= n ==> ShowsAfter(f, ops, i)
  {
    hide ShowsAfter, GuardAt;
    if n == 0 {
      NothingHeld(f, ops);
    } else {
      GuardedShows(f, ops, n - 1);
      StepShows(f, ops, n - 1);
    }
  }

  /** One stray Remove can be harmless and still hide a held item later: with one bucket, whatever the hash, adding two
      items, removing a third and then one of the two denies the other, although the last Remove is matched. */
  lemma StrayRemoveHidesLater(hash: Bytes -> (nat, nat), y: Bytes, z: Bytes, x: Bytes)
    requires y != [] && z != [] && x != [] && y != z && x != y && x != z
    ensures
      var f := Shape(1, 1, hash);
      var ops := [Add(y)] + [Add(z)] + [Remove(x)];
      var more := ops + [Remove(y)];
      && HeldAfter(ops) == [y, z] && Shows(f, CountersAfter(f, ops), {y, z})
      && HeldAfter(more) == [z] && !Tests(f, CountersAfter(f, more), z)
  {
    hide Added, Removed, Shape.Hits, Shape.Slot, Tests, CountersAfter, HeldAfter;
    var f := Shape(1, 1, hash);
    AfterTwoAdds(hash, y, z);
    var two, three := [Add(y)] + [Add(z)], [Add(y)] + [Add(z)] + [Remove(x)];
    RunSnoc(f, two, Remove(x));
    OneBucketMoves(hash, x, 2);
    OneBucketShows(hash, 1, {y, z});
    RunSnoc(f, three, Remove(y));
    OneBucketMoves(hash, y, 1);
    OneBucketDenies(hash, z);
    DropFirst(y, z);
  }

  lemma AfterTwoAdds(hash: Bytes -> (nat, nat), y: Bytes, z: Bytes)
    requires y != [] && z != []
    ensures
      var f, ops := Shape(1, 1, hash), [Add(y)] + [Add(z)];
      CountersAfter(f, ops) == [2] && HeldAfter(ops) == [y, z]
  {
    hide Added, Removed, Shape.Hits, Shape.Slot, Tests;
    var f := Shape(1, 1, hash);
    AfterNothing(f);
    hide CountersAfter, HeldAfter;
    RunSnoc(f, [], Add(y));
    OneBucketMoves(hash, y, 0);
    assert [] + [Add(y)] == [Add(y)] && [] + [y] == [y];
    RunSnoc(f, [Add(y)], Add(z));
    OneBucketMoves(hash, z, 1);
  }

  lemma AfterNothing(f: Shape)
    requires f.m == 1
    ensures CountersAfter(f, []) == [0] && HeldAfter([]) == []
  {
  }

  lemma DropFirst(y: Bytes, z: Bytes)
    requires y != z
    ensures IndexOf([y, z], y) == 0 && Drop([y, z], 0) == [z]
  {
  }

  lemma RunSnoc(f: Shape, ops: seq<Op>, op: Op)
    ensures
      CountersAfter(f, ops + [op])
        == if op.Add? then Added(f, CountersAfter(f, ops), op.x) else Removed(f, CountersAfter(f, ops), op.x)
    ensures op.Add? && op.x != [] ==> HeldAfter(ops + [op]) == HeldAfter(ops) + [op.x]
    ensures op.Remove? ==>
      HeldAfter(ops + [op]) ==
        if op.x in HeldAfter(ops) then Drop(HeldAfter(ops), IndexOf(HeldAfter(ops), op.x)) else HeldAfter(ops)
  {
    assert (ops + [op])[..|ops|] == ops;
  }

  lemma OneBucketMoves(hash: Bytes -> (nat, nat), x: Bytes, c: nat)
    requires x != [] && c < 3
    ensures
      var f := Shape(1, 1, hash);
      Added(f, [c], x) == [c + 1] && (c > 0 ==> Removed(f, [c], x) == [c - 1])
  {
    OneBucket(hash, x);
  }

  lemma OneBucketShows(hash: Bytes -> (nat, nat), c: byte, items: set<Bytes>)
    requires c > 0
    ensures Shows(Shape(1, 1, hash), [c], items)
  {
  }

  lemma OneBucketDenies(hash: Bytes -> (nat, nat), x: Bytes)
    requires x != []
    ensures !Tests(Shape(1, 1, hash), [0], x)
  {
    OneBucket(hash, x);
  }

  lemma OneBucket(hash: Bytes -> (nat, nat), x: Bytes)
    ensures var f := Shape(1, 1, hash); f.Slot(x, 0) == 0 && f.Hits(x, 0, 1) == 1
  {
    var f := Shape(1, 1, hash);
    assert f.Hits(x, 0, 1) == f.Hits(x, 0, 0) + 1;
  }

  /** So a Remove of an absent item can lose a held one: with one bucket, whatever the hash. */
  lemma RemoveOfAbsentItemLosesHeldOne(hash: Bytes -> (nat, nat), y: Bytes, x: Bytes)
    requires y != [] && x != [] && x != y
    ensures
      var f := Shape(1, 1, hash);
      Exact(f, [1], [y]) && !Tests(f, Removed(f, [1], x), y)
  {
    var f := Shape(1, 1, hash);
    OneBucket(hash, y);
    OneBucket(hash, x);
    assert f.Total([y], 0) == 1 + f.Total([], 0);
    assert Removed(f, [1], x)[0] == 0;
  }

  /** For every shape: a filter holding one item only denies it after the Remove of another exactly when some bucket of
      the held item, not stuck, is hit at least as often by the removed one. */
  lemma RemoveOfAbsentItemHidesIff(f: Shape, cs: Bytes, y: Bytes, x: Bytes)
    requires Exact(f, cs, [y]) && x != [] && x != y && !f.Idle()
    ensures !Tests(f, Removed(f, cs, x), y) <==>
      exists i :: 0 <= i < f.k && cs[f.Slot(y, i)] != STUCK && f.Hits(x, f.Slot(y, i), f.k) >= f.Hits(y, f.Slot(y, i), f.k)
  {
    NoFalseNegatives(f, cs, [y], y);
    RemoveShowsIff(f, cs, x, {y});
    forall i | 0 <= i < f.k ensures f.Total([y], f.Slot(y, i)) == f.Hits(y, f.Slot(y, i), f.k) {
      assert f.Total([y], f.Slot(y, i)) == f.Hits(y, f.Slot(y, i), f.k) + f.Total([], f.Slot(y, i));
    }
    if Shows(f, Removed(f, cs, x), {y}) {
      assert Tests(f, Removed(f, cs, x), y);
    }
  }

  /** Each Remove matches an item still held at that point (or is the ignored empty key). */
  ghost predicate Matched(ops: seq<Op>) {
    forall n :: 0 <= n < |ops| && ops[n].Remove? && ops[n].x != [] ==> ops[n].x in HeldAfter(ops[..n])
  }

  /** Over every matched run the counters are exact, so a held item is never denied. */
  lemma {:induction false} RunIsExact(f: Shape, ops: seq<Op>)
    requires Matched(ops)
    ensures Exact(f, CountersAfter(f, ops), HeldAfter(ops))
    ensures forall x :: x in HeldAfter(ops) ==> Tests(f, CountersAfter(f, ops), x)
  {
    if ops == [] {
      assert f.m > 0 ==> forall b :: 0 <= b < f.m ==> f.Total([], b) == 0;
    } else {
      var n := |ops| - 1;
      var front := ops[..n];
      assert forall i :: 0 <= i < n ==> front[..i] == ops[..i];
      RunIsExact(f, front);
      var cs, held := CountersAfter(f, front), HeldAfter(front);
      match ops[n] {
        case Add(x) => AddKeepsExact(f, cs, held, x);
        case Remove(x) =>
          if x in held {
            RemoveKeepsExact(f, cs, held, IndexOf(held, x));
          }
      }
    }
    forall x | x in HeldAfter(ops) ensures Tests(f, CountersAfter(f, ops), x) {
      NoFalseNegatives(f, CountersAfter(f, ops), HeldAfter(ops), x);
    }
  }

  // ------------------------------------------------------- the filter

  class CountingBloomFilter {
    const f: Shape
    const counters: array<byte>
    var count: nat

    ghost predicate Valid() { counters.Length == f.m }

    /** A fresh filter, or one loaded from a snapshot. */
    constructor (f: Shape, snapshot: Option<Bytes>, count: nat)
      requires snapshot.Some? ==> |snapshot.value| == f.m
      ensures Valid() && this.f == f && fresh(counters) && this.count == count
      ensures counters[..] == match snapshot case Some(cs) => cs case None => CountersAfter(f, [])
    {
      this.f := f;
      this.count := count;
      counters := new byte[f.m](i requires 0 <= i < f.m => if snapshot.Some? then snapshot.value[i] else 0);
    }

    method Add(x: Bytes)
      requires Valid()
      modifies this, counters
      ensures counters[..] == Added(f, old(counters[..]), x)
      ensures count == if x == [] || f.Idle() then old(count) else old(count) + 1
    {
      if x == [] || f.m == 0 || f.k == 0 {
        return;
      }
      var i := 0;
      while i < f.k
        invariant 0 <= i <= f.k && count == old(count)
        invariant forall b :: 0 <= b < f.m ==> counters[b] == Raise(old(counters[b]), f.Hits(x, b, i))
      {
        var idx := (f.hash(x).0 + i * f.hash(x).1) % TWO64 % f.m;
        assert idx == f.Slot(x, i);
        if counters[idx] < STUCK {
          counters[idx] := counters[idx] + 1;
        }
        i := i + 1;
      }
      count := count + 1;
      assert counters[..] == Added(f, old(counters[..]), x);
    }

    method Remove(x: Bytes)
      requires Valid()
      modifies this, counters
      ensures counters[..] == Removed(f, old(counters[..]), x)
      ensures count == if x == [] || f.Idle() then old(count) else Max(0, old(count) - 1)
    {
      if x == [] || f.m == 0 || f.k == 0 {
        return;
      }
      var i := 0;
      while i < f.k
        invariant 0 <= i <= f.k && count == old(count)
        invariant forall b :: 0 <= b < f.m ==> counters[b] == Lower(old(counters[b]), f.Hits(x, b, i))
      {
        var idx := (f.hash(x).0 + i * f.hash(x).1) % TWO64 % f.m;
        assert idx == f.Slot(x, i);
        if counters[idx] > 0 && counters[idx] < STUCK {
          counters[idx] := counters[idx] - 1;
        }
        i := i + 1;
      }
      if count > 0 {
        count := count - 1;
      }
      assert counters[..] == Removed(f, old(counters[..]), x);
    }

    method Test(x: Bytes) returns (maybe: bool)
      requires Valid()
      ensures maybe == Tests(f, counters[..], x)
    {
      if x == [] || f.m == 0 || f.k == 0 {
        return true;
      }
      var i := 0;
      while i < f.k
        invariant 0 <= i <= f.k
        invariant forall j :: 0 <= j < i ==> counters[..][f.Slot(x, j)] != 0
      {
        var idx := (f.hash(x).0 + i * f.hash(x).1) % TWO64 % f.m;
        assert idx == f.Slot(x, i);
        if counters[idx] == 0 {
          assert counters[..][f.Slot(x, i)] == 0;
          return false;
        }
        i := i + 1;
      }
      return true;
    }
  }
}
