/** The carry structure both builders share: per-level buffers that collapse into a parent at FANOUT entries,
    and the level-complete batch reduction they must agree with. */
module Carry {
  import opened Common

  const FANOUT := 174

  /** How a group of siblings at a level becomes one entry of the next level, and the block that is written for it. */
  datatype Tree<!T, !B> = Tree(parent: (nat, seq<T>) -> T, block: (nat, seq<T>) -> B)

  /** ceil(n / FANOUT) */
  function Groups(n: nat): nat { (n + FANOUT - 1) / FANOUT }

  function Group<T>(s: seq<T>, k: nat): (g: seq<T>)
    requires k < Groups(|s|)
    ensures 1 <= |g| <= FANOUT
    ensures k < |s| / FANOUT ==> |g| == FANOUT
  {
    s[k * FANOUT..Min((k + 1) * FANOUT, |s|)]
  }

  /** Entries not yet part of a full group. */
  function Tail<T>(s: seq<T>): seq<T> { s[|s| / FANOUT * FANOUT..] }

  function FullParents<T, B>(t: Tree<T, B>, level: nat, s: seq<T>): (r: seq<T>)
    ensures |r| == |s| / FANOUT
  {
    seq(|s| / FANOUT, k requires 0 <= k < |s| / FANOUT => t.parent(level, Group(s, k)))
  }

  function AllParents<T, B>(t: Tree<T, B>, level: nat, s: seq<T>): (r: seq<T>)
    ensures |r| == Groups(|s|)
  {
    seq(Groups(|s|), k requires 0 <= k < Groups(|s|) => t.parent(level, Group(s, k)))
  }

  // ------------------------------------------------- the batch algorithm

  /** "Group into runs of FANOUT, replace each run by its parent, repeat while more than one entry remains." */
  function BatchRoot<T, B>(t: Tree<T, B>, level: nat, s: seq<T>): T
    requires s != []
    decreases |s|
  {
    if |s| == 1 then s[0] else BatchRoot(t, level + 1, AllParents(t, level, s))
  }

  ghost function LevelBlocks<T, B>(t: Tree<T, B>, level: nat, s: seq<T>, count: nat): set<B>
    requires count <= Groups(|s|)
  {
    set k | 0 <= k < count :: t.block(level, Group(s, k))
  }

  /** Every block the batch algorithm writes above `s`. */
  ghost function BatchBlocks<T, B>(t: Tree<T, B>, level: nat, s: seq<T>): set<B>
    decreases |s|
  {
    if |s| <= 1 then {}
    else LevelBlocks(t, level, s, Groups(|s|)) + BatchBlocks(t, level + 1, AllParents(t, level, s))
  }

  /** Number of reductions the batch algorithm makes on n entries. */
  function Height(n: nat): nat {
    if n <= 1 then 0 else 1 + Height(Groups(n))
  }

  // ------------------------------------------- the streaming representation

  /** Buffers `i` and up are what is left after streaming `s` into level `i` of an empty stack. */
  ghost predicate Holds<T, B>(t: Tree<T, B>, levels: seq<seq<T>>, i: nat, s: seq<T>)
    decreases |levels| - i
  {
    if i >= |levels| then s == []
    else levels[i] == Tail(s) && Holds(t, levels, i + 1, FullParents(t, i, s))
  }

  /** Every block written while streaming `s` into level `level`. */
  ghost function StreamBlocks<T, B>(t: Tree<T, B>, level: nat, s: seq<T>): set<B>
    decreases |s|
  {
    if |s| < FANOUT then {}
    else LevelBlocks(t, level, s, |s| / FANOUT) + StreamBlocks(t, level + 1, FullParents(t, level, s))
  }

  lemma StreamBlocksUnfold<T, B>(t: Tree<T, B>, level: nat, s: seq<T>)
    ensures StreamBlocks(t, level, s)
         == LevelBlocks(t, level, s, |s| / FANOUT) + StreamBlocks(t, level + 1, FullParents(t, level, s))
  {
  }

  lemma GroupStable<T>(s: seq<T>, x: T, k: nat)
    requires k < |s| / FANOUT
    ensures Group(s + [x], k) == Group(s, k)
  {
    assert (k + 1) * FANOUT <= |s|;
  }

  /** One more entry either leaves the full groups alone or completes exactly one. */
  lemma Append<T, B>(t: Tree<T, B>, level: nat, s: seq<T>, x: T)
    ensures |Tail(s)| < FANOUT
    ensures |Tail(s)| + 1 < FANOUT ==>
      && Tail(s + [x]) == Tail(s) + [x]
      && FullParents(t, level, s + [x]) == FullParents(t, level, s)
      && LevelBlocks(t, level, s + [x], |s + [x]| / FANOUT) == LevelBlocks(t, level, s, |s| / FANOUT)
    ensures |Tail(s)| + 1 == FANOUT ==>
      && Tail(s + [x]) == []
      && FullParents(t, level, s + [x]) == FullParents(t, level, s) + [t.parent(level, Tail(s) + [x])]
      && LevelBlocks(t, level, s + [x], |s + [x]| / FANOUT)
         == LevelBlocks(t, level, s, |s| / FANOUT) + {t.block(level, Tail(s) + [x])}
  {
    var s' := s + [x];
    var n, n' := |s| / FANOUT, |s'| / FANOUT;
    forall k | 0 <= k < n ensures Group(s', k) == Group(s, k) { GroupStable(s, x, k); }
    if |Tail(s)| + 1 < FANOUT {
      assert n' == n;
      assert FullParents(t, level, s') == FullParents(t, level, s);
      assert LevelBlocks(t, level, s', n') == LevelBlocks(t, level, s, n);
    } else {
      assert n' == n + 1;
      assert Group(s', n) == Tail(s) + [x];
      assert FullParents(t, level, s') == FullParents(t, level, s) + [t.parent(level, Tail(s) + [x])];
      assert LevelBlocks(t, level, s', n') == LevelBlocks(t, level, s, n) + {t.block(level, Group(s', n))};
    }
  }

  /** Flushing the tail turns the full groups into all groups. */
  lemma Flush<T, B>(t: Tree<T, B>, level: nat, s: seq<T>)
    ensures Tail(s) == [] ==>
      && AllParents(t, level, s) == FullParents(t, level, s)
      && LevelBlocks(t, level, s, Groups(|s|)) == LevelBlocks(t, level, s, |s| / FANOUT)
    ensures Tail(s) != [] ==>
      && AllParents(t, level, s) == FullParents(t, level, s) + [t.parent(level, Tail(s))]
      && LevelBlocks(t, level, s, Groups(|s|))
         == LevelBlocks(t, level, s, |s| / FANOUT) + {t.block(level, Tail(s))}
  {
    var n := |s| / FANOUT;
    if Tail(s) == [] {
      assert Groups(|s|) == n;
    } else {
      assert Groups(|s|) == n + 1;
      assert Group(s, n) == Tail(s);
      assert AllParents(t, level, s) == FullParents(t, level, s) + [t.parent(level, Tail(s))];
      assert LevelBlocks(t, level, s, n + 1) == LevelBlocks(t, level, s, n) + {t.block(level, Group(s, n))};
    }
  }

  /** Only the buffers from `i` on matter. */
  lemma {:induction false} HoldsFrame<T, B>(t: Tree<T, B>, a: seq<seq<T>>, b: seq<seq<T>>, i: nat, s: seq<T>)
    requires |a| == |b| && forall j :: i <= j < |a| ==> a[j] == b[j]
    requires Holds(t, a, i, s)
    ensures Holds(t, b, i, s)
    decreases |a| - i
  {
    if i < |a| {
      HoldsFrame(t, a, b, i + 1, FullParents(t, i, s));
    }
  }

  /** Growing the stack by an empty buffer changes nothing. */
  lemma {:induction false} HoldsExtend<T, B>(t: Tree<T, B>, a: seq<seq<T>>, i: nat, s: seq<T>)
    requires Holds(t, a, i, s)
    ensures Holds(t, a + [[]], i, s)
    decreases |a| - i
  {
    if i < |a| {
      HoldsExtend(t, a, i + 1, FullParents(t, i, s));
    } else if i == |a| {
      assert Holds(t, a + [[]], i + 1, FullParents(t, i, s));
    }
  }

  ghost predicate EmptyFrom<T>(a: seq<seq<T>>, i: nat) {
    forall j :: i <= j < |a| ==> a[j] == []
  }

  lemma NothingLeft<T, B>(t: Tree<T, B>, level: nat, s: seq<T>)
    ensures Tail(s) == [] && FullParents(t, level, s) == [] <==> s == []
  {
    assert |Tail(s)| == |s| - |s| / FANOUT * FANOUT;
  }

  /** All buffers from `i` on are empty exactly when nothing was streamed into level `i`. */
  lemma {:induction false} HoldsEmpty<T, B>(t: Tree<T, B>, a: seq<seq<T>>, i: nat, s: seq<T>)
    requires Holds(t, a, i, s)
    ensures EmptyFrom(a, i) <==> s == []
    decreases |a| - i
  {
    hide Tail, FullParents;
    if i < |a| {
      HoldsEmpty(t, a, i + 1, FullParents(t, i, s));
      assert EmptyFrom(a, i) <==> a[i] == [] && EmptyFrom(a, i + 1);
      NothingLeft(t, i, s);
    }
  }

  // ------------------------------------------------------ stack states

  /** The stack after `s` was streamed into `level`: buffers, and all blocks written (`base` is older or lower). */
  ghost predicate Streamed<T, B>(t: Tree<T, B>, levels: seq<seq<T>>, puts: set<B>, level: nat, s: seq<T>, base: set<B>) {
    Holds(t, levels, level, s) && puts == base + StreamBlocks(t, level, s)
  }

  lemma StreamedStart<T, B>(t: Tree<T, B>, puts: set<B>)
    ensures Streamed(t, [], puts, 0, [], puts)
  {
  }

  /** A block written outside the stack joins the base. */
  lemma StreamedBase<T, B>(t: Tree<T, B>, levels: seq<seq<T>>, puts: set<B>, level: nat, s: seq<T>, base: set<B>, b: B)
    requires Streamed(t, levels, puts, level, s, base)
    ensures Streamed(t, levels, puts + {b}, level, s, base + {b})
  {
  }

  lemma StreamedGrow<T, B>(t: Tree<T, B>, levels: seq<seq<T>>, puts: set<B>, level: nat, s: seq<T>, base: set<B>)
    requires Streamed(t, levels, puts, level, s, base)
    ensures Streamed(t, levels + [[]], puts, level, s, base)
  {
    HoldsExtend(t, levels, level, s);
  }

  /** An entry that does not fill its buffer is just appended. */
  lemma StreamedAppend<T, B>(t: Tree<T, B>, levels: seq<seq<T>>, puts: set<B>, level: nat, s: seq<T>, base: set<B>, x: T)
    requires Streamed(t, levels, puts, level, s, base) && level < |levels|
    ensures |levels[level]| < FANOUT && levels[level] == Tail(s)
    ensures |levels[level]| + 1 < FANOUT ==>
      Streamed(t, levels[level := levels[level] + [x]], puts, level, s + [x], base)
  {
    Append(t, level, s, x);
    if |levels[level]| + 1 < FANOUT {
      var after := levels[level := levels[level] + [x]];
      HoldsFrame(t, levels, after, level + 1, FullParents(t, level, s));
      StreamBlocksUnfold(t, level, s);
      StreamBlocksUnfold(t, level, s + [x]);
    }
  }

  ghost function CarryBase<T, B>(t: Tree<T, B>, level: nat, s: seq<T>, base: set<B>): set<B> {
    base + LevelBlocks(t, level, s, |s| / FANOUT)
  }

  /** An entry that fills its buffer leaves a stack one level up, one parent short of the new state. */
  lemma StreamedCarry<T, B>(t: Tree<T, B>, levels: seq<seq<T>>, puts: set<B>, level: nat, s: seq<T>, base: set<B>, x: T)
    requires Streamed(t, levels, puts, level, s, base) && level < |levels| && |levels[level]| + 1 == FANOUT
    ensures Streamed(t, levels[level := []], puts + {t.block(level, levels[level] + [x])}, level + 1,
                     FullParents(t, level, s), CarryBase(t, level, s + [x], base))
  {
    Append(t, level, s, x);
    HoldsFrame(t, levels, levels[level := []], level + 1, FullParents(t, level, s));
    StreamBlocksUnfold(t, level, s);
  }

  lemma StreamedCarried<T, B>(t: Tree<T, B>, levels: seq<seq<T>>, puts: set<B>, level: nat, s: seq<T>, base: set<B>, x: T)
    requires |Tail(s)| + 1 == FANOUT
    requires level < |levels| && levels[level] == []
    requires Streamed(t, levels, puts, level + 1, FullParents(t, level, s) + [t.parent(level, Tail(s) + [x])],
                      CarryBase(t, level, s + [x], base))
    ensures Streamed(t, levels, puts, level, s + [x], base)
  {
    Append(t, level, s, x);
    StreamBlocksUnfold(t, level, s + [x]);
  }

  /** An empty buffer is passed over: the level above is already complete. */
  lemma StreamedSkip<T, B>(t: Tree<T, B>, levels: seq<seq<T>>, puts: set<B>, level: nat, s: seq<T>, base: set<B>)
    requires Streamed(t, levels, puts, level, s, base) && level < |levels| && levels[level] == [] && s != []
    ensures Streamed(t, levels, puts, level + 1, AllParents(t, level, s), base + LevelBlocks(t, level, s, Groups(|s|)))
    ensures |s| >= FANOUT
  {
    Flush(t, level, s);
    StreamBlocksUnfold(t, level, s);
  }

  /** Flushing a partial buffer leaves a stack one level up, one parent short of the complete level. */
  lemma StreamedFlush<T, B>(t: Tree<T, B>, levels: seq<seq<T>>, puts: set<B>, level: nat, s: seq<T>, base: set<B>)
    requires Streamed(t, levels, puts, level, s, base) && level < |levels| && levels[level] != []
    ensures AllParents(t, level, s) == FullParents(t, level, s) + [t.parent(level, levels[level])]
    ensures Streamed(t, levels[level := []], puts + {t.block(level, levels[level])}, level + 1,
                     FullParents(t, level, s), base + LevelBlocks(t, level, s, Groups(|s|)))
  {
    Flush(t, level, s);
    HoldsFrame(t, levels, levels[level := []], level + 1, FullParents(t, level, s));
    StreamBlocksUnfold(t, level, s);
  }

  /** Nothing above a buffer: the buffer is everything, and no block was written above it. */
  lemma StreamedTop<T, B>(t: Tree<T, B>, levels: seq<seq<T>>, puts: set<B>, level: nat, s: seq<T>, base: set<B>)
    requires Streamed(t, levels, puts, level, s, base) && level < |levels| && levels[level] != []
    ensures |s| >= |levels[level]|
    ensures EmptyFrom(levels, level + 1) <==> s == levels[level]
    ensures EmptyFrom(levels, level + 1) ==> puts == base
    ensures !EmptyFrom(levels, level + 1) ==> |s| >= FANOUT
  {
    HoldsEmpty(t, levels, level + 1, FullParents(t, level, s));
    assert FullParents(t, level, s) == [] <==> |s| < FANOUT;
    if |s| < FANOUT {
      assert Tail(s) == s;
    }
  }

  lemma StreamedEmpty<T, B>(t: Tree<T, B>, levels: seq<seq<T>>, puts: set<B>, level: nat, base: set<B>)
    requires Streamed(t, levels, puts, level, [], base) && level < |levels|
    ensures levels[level] == [] && Streamed(t, levels, puts, level + 1, [], base)
  {
    assert FullParents(t, level, []) == [];
  }

  lemma StreamedNothing<T, B>(t: Tree<T, B>, levels: seq<seq<T>>, puts: set<B>, level: nat, s: seq<T>, base: set<B>)
    requires Streamed(t, levels, puts, level, s, base) && level >= |levels|
    ensures s == []
  {
  }

  /** Batch progress: reducing `leaves` has come to `s` at `level`, with `done` written on the way. */
  ghost predicate Reduced<T, B>(t: Tree<T, B>, level: nat, s: seq<T>, done: set<B>, leaves: seq<T>, base: set<B>) {
    && s != [] && leaves != []
    && BatchRoot(t, level, s) == BatchRoot(t, 0, leaves)
    && done + BatchBlocks(t, level, s) == base + BatchBlocks(t, 0, leaves)
  }

  lemma ReducedStart<T, B>(t: Tree<T, B>, leaves: seq<T>, base: set<B>)
    requires leaves != []
    ensures Reduced(t, 0, leaves, base, leaves, base)
  {
  }

  lemma ReducedStep<T, B>(t: Tree<T, B>, level: nat, s: seq<T>, done: set<B>, leaves: seq<T>, base: set<B>)
    requires Reduced(t, level, s, done, leaves, base) && |s| > 1
    ensures Reduced(t, level + 1, AllParents(t, level, s), done + LevelBlocks(t, level, s, Groups(|s|)), leaves, base)
    ensures |AllParents(t, level, s)| < |s|
  {
    var here := LevelBlocks(t, level, s, Groups(|s|));
    var above := BatchBlocks(t, level + 1, AllParents(t, level, s));
    assert BatchBlocks(t, level, s) == here + above;
    assert done + (here + above) == done + here + above;
  }

  lemma ReducedRoot<T, B>(t: Tree<T, B>, level: nat, s: seq<T>, done: set<B>, leaves: seq<T>, base: set<B>)
    requires Reduced(t, level, s, done, leaves, base) && |s| == 1
    ensures s[0] == BatchRoot(t, 0, leaves) && done == base + BatchBlocks(t, 0, leaves)
  {
    assert BatchBlocks(t, level, s) == {};
  }

  // ---------------------------------------------------- digits and height

  function Pow(e: nat): (r: nat)
    ensures r >= 1
  {
    if e == 0 then 1 else FANOUT * Pow(e - 1)
  }

  lemma DivDiv(n: nat, e: nat)
    ensures (n / FANOUT) / Pow(e) == n / Pow(e + 1)
  {
    var p := Pow(e);
    var q, r := n / FANOUT, n % FANOUT;
    var a, b := q / p, q % p;
    assert n == FANOUT * q + r && q == p * a + b;
    assert n == (FANOUT * p) * a + (FANOUT * b + r) by {
      assert FANOUT * (p * a) == (FANOUT * p) * a;
    }
    assert FANOUT * b + r < FANOUT * p;
    QuotientUnique(n, FANOUT * p, a, FANOUT * b + r);
  }

  /** Buffer `j` holds exactly the digit of weight FANOUT^(j-i) of the number of entries streamed into level `i`. */
  lemma {:induction false} BufferIsDigit<T, B>(t: Tree<T, B>, a: seq<seq<T>>, i: nat, s: seq<T>, j: nat)
    requires Holds(t, a, i, s) && i <= j < |a|
    ensures |a[j]| == |s| / Pow(j - i) % FANOUT
    decreases j - i
  {
    if i < j {
      BufferIsDigit(t, a, i + 1, FullParents(t, i, s), j);
      DivDiv(|s|, j - i - 1);
    }
  }

  /** No empty buffer on top. */
  predicate Lean<T>(levels: seq<seq<T>>) { levels == [] || |levels[|levels| - 1]| > 0 }

  /** Entries waiting in all buffers. */
  function Buffered<T>(levels: seq<seq<T>>): nat { if levels == [] then 0 else |levels[0]| + Buffered(levels[1..]) }

  lemma {:induction false} BufferedBound<T>(levels: seq<seq<T>>)
    requires forall i :: 0 <= i < |levels| ==> |levels[i]| < FANOUT
    ensures Buffered(levels) <= (FANOUT - 1) * |levels|
  {
    if levels != [] {
      BufferedBound(levels[1..]);
    }
  }

  lemma DigitFacts(n: nat, p: nat)
    requires p > 0
    ensures n / p % FANOUT < FANOUT
    ensures n / p % FANOUT > 0 ==> p <= n
  {
    if n < p {
      QuotientUnique(n, p, 0, n);
    }
  }

  lemma BufferBound<T, B>(t: Tree<T, B>, levels: seq<seq<T>>, s: seq<T>, j: nat)
    requires Holds(t, levels, 0, s) && j < |levels|
    ensures |levels[j]| < FANOUT && (|levels[j]| > 0 ==> Pow(j) <= |s|)
  {
    hide Holds, Pow;
    BufferIsDigit(t, levels, 0, s, j);
    DigitFacts(|s|, Pow(j));
  }

  /** After `n` entries: no more buffers than `n` has digits to base FANOUT, and less than FANOUT entries in each. */
  ghost predicate Small<T>(levels: seq<seq<T>>, n: nat) {
    (levels != [] ==> Pow(|levels| - 1) <= n) && Buffered(levels) <= (FANOUT - 1) * |levels|
  }

  /** Memory stays small as long as no empty buffer is on top. */
  lemma MemoryBound<T, B>(t: Tree<T, B>, levels: seq<seq<T>>, puts: set<B>, s: seq<T>, base: set<B>)
    requires Streamed(t, levels, puts, 0, s, base) && Lean(levels)
    ensures Small(levels, |s|)
  {
    hide Holds, Pow;
    forall j | 0 <= j < |levels| ensures |levels[j]| < FANOUT && (|levels[j]| > 0 ==> Pow(j) <= |s|) {
      BufferBound(t, levels, s, j);
    }
    BufferedBound(levels);
  }

  /** The height is the number of digits needed: FANOUT^(h-1) < n <= FANOUT^h. */
  lemma {:induction false} HeightBounds(n: nat)
    requires n >= 2
    ensures Height(n) >= 1
    ensures Pow(Height(n) - 1) < n <= Pow(Height(n))
  {
    var g := Groups(n);
    if g == 1 {
      assert Height(n) == 1 && Pow(0) == 1 && Pow(1) == FANOUT;
    } else {
      HeightBounds(g);
      assert FANOUT * (g - 1) < n <= FANOUT * g;
      assert FANOUT * Pow(Height(g) - 1) <= FANOUT * (g - 1);
    }
  }

  // --------------------------------------------------------- regrouping

  lemma GroupShift<T>(s: seq<T>, k: nat)
    requires s != [] && k + 1 < Groups(|s|)
    ensures |s| > FANOUT && k < Groups(|s[FANOUT..]|)
    ensures Group(s[FANOUT..], k) == Group(s, k + 1)
  {
    var rest := s[FANOUT..];
    assert Groups(|rest|) == Groups(|s|) - 1;
    var lo, hi := k * FANOUT, Min((k + 1) * FANOUT, |rest|);
    assert Min((k + 2) * FANOUT, |s|) == hi + FANOUT;
    assert rest[lo..hi] == s[lo + FANOUT..hi + FANOUT];
  }

  lemma ParentsShift<T, B>(t: Tree<T, B>, level: nat, s: seq<T>)
    requires |s| > FANOUT
    ensures AllParents(t, level, s)[1..] == AllParents(t, level, s[FANOUT..])
  {
    var rest := s[FANOUT..];
    assert Groups(|rest|) == Groups(|s|) - 1;
    forall k | 0 <= k < Groups(|rest|)
      ensures AllParents(t, level, s)[k + 1] == AllParents(t, level, rest)[k]
    {
      GroupShift(s, k);
    }
  }

  /** If every parent expands to the expansion of its group, a whole level expands like the level below it. */
  lemma {:induction false} Regroup<T, B, U>(t: Tree<T, B>, level: nat, s: seq<T>, below: T -> seq<U>, above: T -> seq<U>)
    requires forall k :: 0 <= k < Groups(|s|) ==> above(t.parent(level, Group(s, k))) == MapConcat(below, Group(s, k))
    ensures MapConcat(above, AllParents(t, level, s)) == MapConcat(below, s)
    decreases |s|
  {
    var ps := AllParents(t, level, s);
    if |s| > FANOUT {
      var g, rest := s[..FANOUT], s[FANOUT..];
      assert Group(s, 0) == g;
      forall k | 0 <= k < Groups(|rest|)
        ensures above(t.parent(level, Group(rest, k))) == MapConcat(below, Group(rest, k))
      {
        assert k + 1 < Groups(|s|);
        GroupShift(s, k);
      }
      Regroup(t, level, rest, below, above);
      ParentsShift(t, level, s);
      assert s == g + rest;
      MapConcatAppend(below, g, rest);
    } else if s != [] {
      assert Group(s, 0) == s;
      assert ps == [t.parent(level, s)];
      assert MapConcat(above, ps) == above(ps[0]) + MapConcat(above, ps[1..]);
    }
  }
}
