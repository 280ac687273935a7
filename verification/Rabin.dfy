/** core/chunk/rabin.go: content-defined chunking with a rolling fingerprint kept through a 64-byte circular buffer. */
module Rabin {
  import opened Common
  import opened InputSource

  const MIN_SIZE := 64 * 1024
  const MAX_SIZE := 512 * 1024
  const WINDOW := 64
  const POLY := 0x3DA3358B4DC173
  const MASK := 0x4_0000

  // ------------------------------------------------ the fingerprint

  /** Byte at index `i` since the last cut; the window starts out as zeros. */
  function At(x: Bytes, i: int): byte { if 0 <= i < |x| then x[i] else 0 }

  /** Byte of age `a` after n bytes: age 0 is the last one. */
  function Aged(x: Bytes, n: int, a: int): byte { At(x, n - 1 - a) }

  /** One roll in unbounded arithmetic, the polynomial factored out. */
  function Weighted(x: Bytes, n: nat): int {
    if n == 0 then 0 else 2 * (Weighted(x, n - 1) - Aged(x, n, WINDOW)) + Aged(x, n, 0)
  }

  /** The 64-bit fingerprint after n bytes. */
  function Fingerprint(x: Bytes, n: nat): nat { (POLY * Weighted(x, n)) % TWO64 }

  /** Horner sum of the `len` bytes from age `from` on: the youngest with weight 1, the next with weight 2, and so on. */
  function Horner(x: Bytes, n: int, from: nat, len: nat): nat
    decreases len
  {
    if len == 0 then 0 else Aged(x, n, from) + 2 * Horner(x, n, from + 1, len - 1)
  }

  lemma Regroup(p: int, a: int)
    ensures 2 * (p * a) == (2 * p) * a
  {
  }

  /** The oldest term split off. */
  lemma {:induction false} HornerLast(x: Bytes, n: int, from: nat, len: nat)
    ensures Horner(x, n, from, len + 1) == Horner(x, n, from, len) + Pow2(len) * Aged(x, n, from + len)
    decreases len
  {
    hide Aged;
    if len == 0 {
      assert Horner(x, n, from + 1, 0) == 0;
    } else {
      HornerLast(x, n, from + 1, len - 1);
      Regroup(Pow2(len - 1), Aged(x, n, from + len));
    }
  }

  /** One byte later every byte is one older. */
  lemma {:induction false} HornerShift(x: Bytes, n: int, from: nat, len: nat)
    ensures Horner(x, n, from + 1, len) == Horner(x, n - 1, from, len)
    decreases len
  {
    if len > 0 {
      HornerShift(x, n, from + 1, len - 1);
    }
  }

  lemma Pow2Values()
    ensures Pow2(16) == 0x1_0000 && Pow2(17) == 0x2_0000
  {
    assert Pow2(4) == 16;
    assert Pow2(8) == 256;
    assert Pow2(12) == 4096;
  }

  /** The part of the weighted sum that survives modulo 2^18: bytes aged 0..17 and 64..80. */
  function Window81(x: Bytes, n: int): int { Horner(x, n, 0, 18) - 2 * Horner(x, n, WINDOW, 17) }

  /** Rolling the window sum is rolling the weighted sum, up to a multiple of 2^18. */
  lemma WindowRolls(x: Bytes, n: nat) returns (q: int)
    requires n > 0
    ensures Window81(x, n) == 2 * (Window81(x, n - 1) - Aged(x, n, WINDOW)) + Aged(x, n, 0) + MASK * q
  {
    hide Aged, Horner, Pow2;
    HornerHead(x, n, 0, 18);
    HornerShift(x, n, 0, 17);
    HornerLast(x, n - 1, 0, 17);
    HornerHead(x, n, WINDOW, 17);
    HornerShift(x, n, WINDOW, 16);
    HornerLast(x, n - 1, WINDOW, 16);
    Pow2Values();
    q := RollArithmetic(Aged(x, n, 0), Horner(x, n - 1, 0, 17), Aged(x, n - 1, 17),
                        Aged(x, n, WINDOW), Horner(x, n - 1, WINDOW, 16), Aged(x, n - 1, WINDOW + 16));
  }

  lemma RollArithmetic(new0: int, young: int, a: int, out: int, oldest: int, b: int) returns (q: int)
    ensures (new0 + 2 * young) - 2 * (out + 2 * oldest)
         == 2 * ((young + 0x2_0000 * a) - 2 * (oldest + 0x1_0000 * b) - out) + new0 + MASK * q
  {
    q := b - a;
  }

  lemma WeightedStep(x: Bytes, n: nat)
    requires n > 0
    ensures Weighted(x, n) == 2 * (Weighted(x, n - 1) - Aged(x, n, WINDOW)) + Aged(x, n, 0)
  {
  }

  lemma WindowStart(x: Bytes)
    ensures Weighted(x, 0) == 0 && Window81(x, 0) == 0
  {
    hide Horner;
    NothingYet(x, 0, 18);
    NothingYet(x, WINDOW, 17);
  }

  lemma Combine(w0: int, win0: int, q0: int, out: int, new0: int, win1: int, q1: int, w1: int)
    requires w0 == win0 + MASK * q0
    requires win1 == 2 * (win0 - out) + new0 + MASK * q1
    requires w1 == 2 * (w0 - out) + new0
    ensures w1 == win1 + MASK * (2 * q0 - q1)
  {
  }

  /** Older and middle bytes only contribute multiples of 2^18. */
  lemma {:induction false} WeightedIsWindow(x: Bytes, n: nat) returns (q: int)
    ensures Weighted(x, n) == Window81(x, n) + MASK * q
  {
    hide *;
    if n == 0 {
      WindowStart(x);
      q := 0;
    } else {
      var q0 := WeightedIsWindow(x, n - 1);
      var q1 := WindowRolls(x, n);
      WeightedStep(x, n);
      Combine(Weighted(x, n - 1), Window81(x, n - 1), q0, Aged(x, n, WINDOW), Aged(x, n, 0), Window81(x, n), q1, Weighted(x, n));
      q := 2 * q0 - q1;
    }
  }

  lemma {:induction false} NothingYet(x: Bytes, from: nat, len: nat)
    ensures Horner(x, 0, from, len) == 0
    decreases len
  {
    if len > 0 {
      NothingYet(x, from + 1, len - 1);
    }
  }

  lemma ModOfMod(v: int, w: int, q: int)
    requires v == w + MASK * q
    ensures v % TWO64 % MASK == w % MASK
  {
    var d := v / TWO64;
    assert v % TWO64 == w + MASK * (q - 0x4000_0000_0000 * d);
    ModShift(w, q - 0x4000_0000_0000 * d);
  }

  lemma ModShift(w: int, k: int)
    ensures (w + MASK * k) % MASK == w % MASK
  {
  }

  /** The low 18 bits of the fingerprint are a closed form over the last 81 bytes since the cut. */
  lemma LowBitsClosedForm(x: Bytes, n: nat)
    ensures Fingerprint(x, n) % MASK == (POLY * Window81(x, n)) % MASK
  {
    hide Window81, Weighted;
    var q := WeightedIsWindow(x, n);
    ModOfMod(POLY * Weighted(x, n), POLY * Window81(x, n), POLY * q);
  }

  ghost predicate SameAges(x: Bytes, n: int, y: Bytes, m: int, lo: nat, hi: nat) {
    forall a :: lo <= a < hi ==> Aged(x, n, a) == Aged(y, m, a)
  }

  lemma {:induction false} HornerSame(x: Bytes, n: int, y: Bytes, m: int, from: nat, len: nat)
    requires SameAges(x, n, y, m, from, from + len)
    ensures Horner(x, n, from, len) == Horner(y, m, from, len)
    decreases len
  {
    hide Aged;
    if len > 0 {
      HornerSame(x, n, y, m, from + 1, len - 1);
    }
  }

  /** Cut locality: the mask test depends only on the bytes aged 0..17 and 64..80. */
  lemma CutLocality(x: Bytes, n: nat, y: Bytes, m: nat)
    requires SameAges(x, n, y, m, 0, 18) && SameAges(x, n, y, m, WINDOW, 81)
    ensures Fingerprint(x, n) % MASK == Fingerprint(y, m) % MASK
  {
    hide Fingerprint, Horner, SameAges;
    HornerSame(x, n, y, m, 0, 18);
    HornerSame(x, n, y, m, WINDOW, 17);
    LowBitsClosedForm(x, n);
    LowBitsClosedForm(y, m);
  }

  const POLY_INVERSE := 0x14bbb

  lemma ModCancel(a: int, b: int)
    ensures (POLY * a) % MASK == (POLY * b) % MASK <==> a % MASK == b % MASK
  {
    assert (POLY * POLY_INVERSE) % MASK == 1;
    if (POLY * a) % MASK == (POLY * b) % MASK {
      Divides(POLY * a, POLY * b);
      var k := (POLY * a - POLY * b) / MASK;
      assert POLY * a == POLY * b + MASK * k;
      var q := (POLY * POLY_INVERSE - 1) / MASK;
      assert POLY * POLY_INVERSE == MASK * q + 1;
      assert (MASK * q + 1) * a == (MASK * q + 1) * b + MASK * (k * POLY_INVERSE);
      assert a == b + MASK * (k * POLY_INVERSE + q * b - q * a);
      ModShift(b, k * POLY_INVERSE + q * b - q * a);
    }
    if a % MASK == b % MASK {
      Divides(a, b);
      var k := (a - b) / MASK;
      assert POLY * a == POLY * b + MASK * (POLY * k);
      ModShift(POLY * b, POLY * k);
    }
  }

  lemma Divides(a: int, b: int)
    requires a % MASK == b % MASK
    ensures a - b == MASK * ((a - b) / MASK)
  {
  }

  /** How far the window is from 64 bytes: two inputs that agree on their last 64 bytes have the same low 18 bits exactly
      when the bytes aged 64 to 80, weighted as the fingerprint weights them, agree modulo 2^18. */
  lemma SameTailIff(x: Bytes, n: nat, y: Bytes, m: nat)
    requires SameAges(x, n, y, m, 0, WINDOW)
    ensures Fingerprint(x, n) % MASK == Fingerprint(y, m) % MASK
       <==> (2 * Horner(x, n, WINDOW, 17)) % MASK == (2 * Horner(y, m, WINDOW, 17)) % MASK
  {
    hide Fingerprint, Horner, SameAges;
    assert SameAges(x, n, y, m, 0, 18) by { FewerAges(x, n, y, m); }
    HornerSame(x, n, y, m, 0, 18);
    LowBitsClosedForm(x, n);
    LowBitsClosedForm(y, m);
    ModCancel(Window81(x, n), Window81(y, m));
    var h := Horner(x, n, 0, 18);
    MinusModulo(h, 2 * Horner(x, n, WINDOW, 17), 2 * Horner(y, m, WINDOW, 17));
  }

  lemma FewerAges(x: Bytes, n: int, y: Bytes, m: int)
    requires SameAges(x, n, y, m, 0, WINDOW)
    ensures SameAges(x, n, y, m, 0, 18)
  {
    hide Aged;
  }

  lemma MinusModulo(h: int, a: int, b: int)
    ensures (h - a) % MASK == (h - b) % MASK <==> a % MASK == b % MASK
  {
    if (h - a) % MASK == (h - b) % MASK {
      Divides(h - a, h - b);
      ModShift(b, -((h - a - (h - b)) / MASK));
    }
    if a % MASK == b % MASK {
      Divides(a, b);
      ModShift(h - b, -((a - b) / MASK));
    }
  }

  lemma {:induction false} HornerZero(x: Bytes, n: int, from: nat, len: nat)
    requires forall a :: from <= a < from + len ==> Aged(x, n, a) == 0
    ensures Horner(x, n, from, len) == 0
    decreases len
  {
    hide Aged;
    if len > 0 {
      HornerZero(x, n, from + 1, len - 1);
    }
  }

  /** The window is not the 64 bytes the comments speak of: two inputs that agree on their last 64 bytes can differ in
      the mask test, because a byte is subtracted with weight 1 when its own weight has long been shifted out. */
  lemma WindowIsNot64()
    ensures
      var x, y := [1] + Zeros(64), [0] + Zeros(64);
      && x[1..] == y[1..] && |x[1..]| == WINDOW
      && Fingerprint(x, 65) % MASK != 0 && Fingerprint(y, 65) % MASK == 0
  {
    hide Fingerprint, Horner;
    var x, y := [1] + Zeros(64), [0] + Zeros(64);
    HornerZero(x, 65, 0, 18);
    HornerZero(y, 65, 0, 18);
    HornerZero(y, 65, WINDOW, 17);
    HornerZero(x, 65, WINDOW + 1, 16);
    HornerHead(x, 65, WINDOW, 17);
    assert Aged(x, 65, WINDOW) == x[0];
    LowBitsClosedForm(x, 65);
    LowBitsClosedForm(y, 65);
  }

  lemma HornerHead(x: Bytes, n: int, from: nat, len: nat)
    requires len > 0
    ensures Horner(x, n, from, len) == Aged(x, n, from) + 2 * Horner(x, n, from + 1, len - 1)
  {
  }

  // ------------------------------------------------ the specification cut

  predicate Masked(x: Bytes) { Fingerprint(x, |x|) % MASK == 0 }

  /** Size of the first block of `s`, given that none of the first n bytes ends it. */
  function CutAt(s: Bytes, n: nat): (c: nat)
    requires n <= |s|
    ensures n <= c <= |s|
    decreases |s| - n
  {
    if n == |s| then n
    else if n + 1 >= MAX_SIZE || (n + 1 >= MIN_SIZE && Masked(s[..n + 1])) then n + 1
    else CutAt(s, n + 1)
  }

  lemma {:induction false} CutAtBounds(s: Bytes, n: nat)
    requires n <= |s| && n < MAX_SIZE
    ensures CutAt(s, n) <= MAX_SIZE && (n < |s| ==> CutAt(s, n) > n)
    ensures CutAt(s, n) < MIN_SIZE ==> CutAt(s, n) == |s|
    decreases |s| - n
  {
    hide Masked;
    if n < |s| && !(n + 1 >= MAX_SIZE || (n + 1 >= MIN_SIZE && Masked(s[..n + 1]))) {
      CutAtBounds(s, n + 1);
    }
  }

  function Cut(s: Bytes): seq<Bytes>
    decreases |s|
  {
    if s == [] then []
    else
      CutAtBounds(s, 0);
      [s[..CutAt(s, 0)]] + Cut(s[CutAt(s, 0)..])
  }

  /** Blocks concatenate to the input and keep the size bounds, except that the last may be short. */
  lemma {:induction false} CutFacts(s: Bytes)
    ensures Flatten(Cut(s)) == s
    ensures forall i :: 0 <= i < |Cut(s)| ==> 0 < |Cut(s)[i]| <= MAX_SIZE
    ensures forall i :: 0 <= i < |Cut(s)| - 1 ==> |Cut(s)[i]| >= MIN_SIZE
    decreases |s|
  {
    hide CutAt;
    if s != [] {
      CutAtBounds(s, 0);
      var c := CutAt(s, 0);
      CutFacts(s[c..]);
      assert s == s[..c] + s[c..];
      if c < MIN_SIZE {
        assert s[c..] == [];
      }
    }
  }

  // ------------------------------------------------ the cut, said directly

  /** Each byte weighted with 2 to the power of its age. */
  function ByteSum(x: Bytes): nat {
    if x == [] then 0 else Pow2(|x| - 1) * x[0] + ByteSum(x[1..])
  }

  /** The condition after `n` bytes of a block: the sum over the last 18 bytes, less twice the sum over the 17 bytes that lie 64
      bytes further back than the last, has 18 zero bits at its low end. */
  ghost predicate Marked(s: Bytes, n: nat)
    requires 65536 <= n <= |s|
  {
    (ByteSum(s[n - 18..n]) - 2 * ByteSum(s[n - 81..n - 64])) % 262144 == 0
  }

  /** The block at the head of `s` is its first `c` bytes: up to the first marked offset from 64 KiB on, 512 KiB, or the end. */
  ghost predicate EndsAt(s: Bytes, c: nat) {
    && c <= |s| && c <= 524288
    && (forall n :: 65536 <= n < c ==> !Marked(s, n))
    && (c < |s| ==> c == 524288 || (c >= 65536 && Marked(s, c)))
  }

  lemma {:induction false} HornerIsByteSum(x: Bytes, n: nat, from: nat, len: nat)
    requires from + len <= n <= |x|
    ensures Horner(x, n, from, len) == ByteSum(x[n - from - len..n - from])
    decreases len
  {
    hide Horner, Pow2;
    var y := x[n - from - len..n - from];
    if len == 0 {
      HornerNothing(x, n, from);
      assert y == [];
    } else {
      HornerIsByteSum(x, n, from, len - 1);
      HornerLast(x, n, from, len - 1);
      assert y[1..] == x[n - from - (len - 1)..n - from];
      assert y[0] == x[n - from - len] == Aged(x, n, from + (len - 1));
    }
  }

  lemma HornerNothing(x: Bytes, n: int, from: nat)
    ensures Horner(x, n, from, 0) == 0
  {
  }

  lemma MaskedIsMarked(s: Bytes, n: nat)
    requires 65536 <= n <= |s|
    ensures Masked(s[..n]) <==> Marked(s, n)
  {
    hide Fingerprint, Horner, ByteSum;
    var x := s[..n];
    HornerIsByteSum(x, n, 0, 18);
    HornerIsByteSum(x, n, WINDOW, 17);
    assert x[n - 18..n] == s[n - 18..n] && x[n - 81..n - 64] == s[n - 81..n - 64];
    LowBitsClosedForm(x, n);
    ModCancel(Window81(x, n), 0);
  }

  lemma {:induction false} CutStops(s: Bytes, n: nat)
    requires n <= |s| && n < MAX_SIZE
    requires forall k :: 65536 <= k <= n ==> !Marked(s, k)
    ensures EndsAt(s, CutAt(s, n))
    decreases |s| - n
  {
    hide Marked, Masked;
    if n < |s| {
      if 65536 <= n + 1 {
        MaskedIsMarked(s, n + 1);
      }
      if !(n + 1 >= MAX_SIZE || (n + 1 >= MIN_SIZE && Masked(s[..n + 1]))) {
        CutStops(s, n + 1);
      }
    }
  }

  /** The specification cut is exactly the one said directly. */
  lemma CutAtIff(s: Bytes, c: nat)
    ensures c == CutAt(s, 0) <==> EndsAt(s, c)
  {
    hide CutAt, Marked;
    CutStops(s, 0);
  }

  /** Every block of the input is of that kind, seen from where it begins. */
  ghost predicate EachEnds(s: Bytes, blocks: seq<Bytes>) {
    forall k :: 0 <= k < |blocks| ==>
      blocks[k] != [] && |Flatten(blocks[..k])| <= |s| && EndsAt(s[|Flatten(blocks[..k])|..], |blocks[k]|)
  }

  lemma {:induction false} CutEnds(s: Bytes)
    ensures Flatten(Cut(s)) == s && EachEnds(s, Cut(s))
    decreases |s|
  {
    hide CutAt, EndsAt, Flatten;
    CutFacts(s);
    if s != [] {
      CutAtBounds(s, 0);
      var c, rest := CutAt(s, 0), Cut(s[CutAt(s, 0)..]);
      CutEnds(s[c..]);
      CutAtIff(s, c);
      forall k | 0 <= k < |Cut(s)|
        ensures |Flatten(Cut(s)[..k])| <= |s| && EndsAt(s[|Flatten(Cut(s)[..k])|..], |Cut(s)[k]|)
      {
        if k == 0 {
          FlattenNothing(Cut(s)[..0]);
          assert s[0..] == s;
        } else {
          assert Cut(s)[..k] == [s[..c]] + rest[..k - 1];
          FlattenHead(s[..c], rest[..k - 1]);
          var n := |Flatten(rest[..k - 1])|;
          assert s[c..][n..] == s[c + n..];
        }
      }
    }
  }

  // ---------------------------------------------------------- the chunker

  /** The circular buffer holds the last WINDOW bytes of `x`, oldest at |x| % WINDOW, zeros before the first. */
  ghost predicate Rings(buf: Bytes, x: Bytes) {
    |buf| == WINDOW && forall i :: |x| - WINDOW <= i < |x| ==> buf[i % WINDOW] == At(x, i)
  }

  lemma RingStep(buf: Bytes, x: Bytes, b: byte)
    requires Rings(buf, x)
    ensures buf[|x| % WINDOW] == Aged(x + [b], |x| + 1, WINDOW)
    ensures Rings(buf[|x| % WINDOW := b], x + [b])
  {
    var n, x' := |x|, x + [b];
    assert (n - WINDOW) % WINDOW == n % WINDOW;
    assert buf[(n - WINDOW) % WINDOW] == At(x, n - WINDOW) == At(x', n - WINDOW);
    forall i | |x'| - WINDOW <= i < |x'| ensures buf[n % WINDOW := b][i % WINDOW] == At(x', i) {
      if i < n {
        SlotsDiffer(i, n);
        assert At(x, i) == At(x', i);
      }
    }
  }

  lemma SlotsDiffer(i: int, n: nat)
    requires n - WINDOW < i < n
    ensures i % WINDOW != n % WINDOW
  {
  }

  /** The 64-bit roll is the unbounded roll modulo 2^64. */
  lemma RollModulo(carry: nat, v: int, out: byte, b: byte)
    requires carry == (POLY * v) % TWO64
    ensures (2 * (carry - out * POLY) + b * POLY) % TWO64 == (POLY * (2 * (v - out) + b)) % TWO64
  {
    var d := (POLY * v) / TWO64;
    var w := POLY * (2 * (v - out) + b);
    assert 2 * (carry - out * POLY) + b * POLY == w + TWO64 * (-2 * d);
    ModShift64(w, -2 * d);
  }

  lemma ModShift64(w: int, k: int)
    ensures (w + TWO64 * k) % TWO64 == w % TWO64
  {
  }

  lemma {:induction false} WeightedPrefix(x: Bytes, b: byte, n: nat)
    requires n <= |x|
    ensures Weighted(x + [b], n) == Weighted(x, n)
  {
    if n > 0 {
      WeightedPrefix(x, b, n - 1);
    }
  }

  lemma FingerprintRolls(x: Bytes, b: byte, carry: nat, out: byte)
    requires carry == Fingerprint(x, |x|) && out == Aged(x + [b], |x| + 1, WINDOW)
    ensures (2 * (carry - out * POLY) + b * POLY) % TWO64 == Fingerprint(x + [b], |x| + 1)
  {
    hide Aged;
    WeightedPrefix(x, b, |x|);
    assert Aged(x + [b], |x| + 1, 0) == b by { LastIsYoungest(x, b); }
    RollModulo(carry, Weighted(x, |x|), out, b);
  }

  lemma LastIsYoungest(x: Bytes, b: byte)
    ensures Aged(x + [b], |x| + 1, 0) == b
  {
  }

  datatype NextResult = Chunk(data: Bytes) | Eof | Failed

  class Chunker {
    const src: Source
    var buf: array<byte>
    var start: nat
    var filled: nat
    var carry: nat
    var pending: Bytes
    var eofSeen: bool

    /** Through the circular buffer, `carry` is the fingerprint of everything since the last cut. */
    ghost predicate Valid()
      reads this`buf, this`start, this`filled, this`carry, this`pending, buf
    {
      && buf.Length == WINDOW && start == |pending| % WINDOW && filled == Min(|pending|, WINDOW)
      && Rings(buf[..], pending)
      && carry == Fingerprint(pending, |pending|)
    }

    constructor (src: Source)
      ensures Valid() && fresh(buf) && this.src == src && pending == [] && !eofSeen
    {
      this.src := src;
      buf := new byte[WINDOW](i => 0);
      start, filled, carry, pending, eofSeen := 0, 0, 0, [], false;
    }

    /** Rolls one byte in, and records it as pending. */
    method RollByte(b: byte)
      requires Valid()
      modifies this`start, this`filled, this`carry, this`pending, buf
      ensures Valid() && pending == old(pending) + [b]
    {
      hide Rings, Fingerprint, Aged;
      RingStep(buf[..], pending, b);
      var outgoing := buf[start];
      FingerprintRolls(pending, b, carry, outgoing);
      buf[start] := b;
      assert buf[..] == old(buf[..])[old(start) := b];
      start := (start + 1) % WINDOW;
      if filled < WINDOW {
        filled := filled + 1;
      }
      carry := (2 * (carry - outgoing * POLY) + b * POLY) % TWO64;
      pending := pending + [b];
    }

    lemma CarryIsFingerprint()
      requires Valid()
      ensures carry == Fingerprint(pending, |pending|)
    {
    }

    /** Emits the pending bytes and resets the window. */
    method CutBlock() returns (data: Bytes)
      requires Valid()
      modifies this`buf, this`start, this`filled, this`carry, this`pending
      ensures Valid() && fresh(buf) && data == old(pending) && pending == []
    {
      data := pending;
      pending, filled, start, carry := [], 0, 0, 0;
      buf := new byte[WINDOW](i => 0);
    }

    /** One turn of the read loop: a finished block, the end, a failure, or one more pending byte. */
    method Step(ghost rest: Bytes) returns (r: Option<NextResult>)
      requires Valid() && !eofSeen && Scanning(rest, pending, Content(src.script))
      modifies this, buf, src
      ensures Valid() && (buf == old(buf) || fresh(buf)) && Breaks(src.script) == old(Breaks(src.script))
      ensures r.None? ==>
        && !eofSeen && buf == old(buf) && Scanning(rest, pending, Content(src.script))
        && Weight(src.script) < old(Weight(src.script))
      ensures r == Some(Failed) ==> eofSeen && Breaks(src.script)
      ensures r == Some(Eof) ==> eofSeen && pending == [] && rest == [] && !Breaks(src.script)
      ensures r.Some? && r.value.Chunk? ==>
        && rest != [] && pending == [] && r.value.data == rest[..CutAt(rest, 0)]
        && Content(src.script) == rest[CutAt(rest, 0)..]
        && (eofSeen ==> Content(src.script) == [] && !Breaks(src.script))
    {
      hide Content, Breaks, Weight, CutAt, Fingerprint, Scanning, Valid;
      var bytes, status := src.Read(1);
      if |bytes| > 0 {
        assert bytes == [bytes[0]];
        ScanByte(rest, pending, bytes[0], Content(src.script));
        RollByte(bytes[0]);
        CarryIsFingerprint();
        if |pending| >= MAX_SIZE || (|pending| >= MIN_SIZE && carry % MASK == 0) {
          var data := CutBlock();
          return Some(Chunk(data));
        }
        return None;
      }
      assert [] + Content(src.script) == Content(src.script);
      if status == Ended {
        ScanEnd(rest, pending);
        eofSeen := true;
        if |pending| == 0 {
          return Some(Eof);
        }
        var data := CutBlock();
        return Some(Chunk(data));
      }
      if status == Broke {
        eofSeen := true;
        return Some(Failed);
      }
      return None;
    }

    /** Next emits the specification's first block of what is left, however reads are fragmented. */
    method Next() returns (r: NextResult)
      requires Valid() && (eofSeen || pending == [])
      modifies this, buf, src
      ensures Valid() && (buf == old(buf) || fresh(buf)) && Breaks(src.script) == old(Breaks(src.script))
      ensures old(eofSeen) ==> r == Eof && eofSeen && src.script == old(src.script) && pending == old(pending)
      ensures !old(eofSeen) && r == Failed ==> eofSeen && Breaks(src.script)
      ensures !old(eofSeen) && r == Eof ==> eofSeen && pending == [] && old(Content(src.script)) == [] && !Breaks(src.script)
      ensures !old(eofSeen) && r.Chunk? ==>
        var rest := old(Content(src.script));
        && rest != [] && pending == [] && r.data == rest[..CutAt(rest, 0)] && EndsAt(rest, |r.data|)
        && Content(src.script) == rest[CutAt(rest, 0)..]
        && (eofSeen ==> Content(src.script) == [] && !Breaks(src.script))
    {
      if eofSeen {
        return Eof;
      }
      hide Content, Breaks, Weight, CutAt, Scanning, Valid, EndsAt;
      ghost var rest := Content(src.script);
      CutAtIff(rest, CutAt(rest, 0));
      ScanStart(rest);
      while true
        invariant Valid() && !eofSeen && buf == old(buf) && Breaks(src.script) == old(Breaks(src.script))
        invariant Scanning(rest, pending, Content(src.script))
        decreases Weight(src.script)
      {
        var step := Step(rest);
        if step.Some? {
          return step.value;
        }
      }
    }
  }

  /** The pending bytes are the front of what was left, and none of them ends the block. */
  ghost predicate Scanning(rest: Bytes, pending: Bytes, ahead: Bytes) {
    rest == pending + ahead && CutAt(rest, |pending|) == CutAt(rest, 0)
  }

  lemma ScanStart(rest: Bytes)
    ensures Scanning(rest, [], rest)
  {
    assert [] + rest == rest;
  }

  lemma ScanByte(rest: Bytes, pending: Bytes, b: byte, ahead: Bytes)
    requires Scanning(rest, pending, [b] + ahead)
    ensures
      var next := pending + [b];
      if |next| >= MAX_SIZE || (|next| >= MIN_SIZE && Fingerprint(next, |next|) % MASK == 0) then
        rest != [] && rest[..CutAt(rest, 0)] == next && rest[CutAt(rest, 0)..] == ahead
      else
        Scanning(rest, next, ahead)
  {
    hide CutAt, Fingerprint;
    var next := pending + [b];
    assert pending + ([b] + ahead) == next + ahead;
    assert rest[..|next|] == next && rest[|next|..] == ahead;
    CutAtStep(rest, |pending|);
  }

  lemma ScanEnd(rest: Bytes, pending: Bytes)
    requires Scanning(rest, pending, [])
    ensures rest == pending && CutAt(rest, 0) == |rest| && rest[..|rest|] == rest && rest[|rest|..] == []
  {
    CutAtEnd(rest);
  }

  lemma CutAtStep(s: Bytes, n: nat)
    requires n < |s|
    ensures CutAt(s, n) ==
      if n + 1 >= MAX_SIZE || (n + 1 >= MIN_SIZE && Fingerprint(s[..n + 1], n + 1) % MASK == 0) then n + 1
      else CutAt(s, n + 1)
  {
  }

  lemma CutAtEnd(s: Bytes)
    ensures CutAt(s, |s|) == |s|
  {
  }

  /** Running the chunker to the end: the blocks depend on the input bytes only. */
  method ChunkAll(script: seq<Event>) returns (blocks: seq<Bytes>, ok: bool)
    ensures ok <==> !Breaks(script)
    ensures ok ==> blocks == Cut(Content(script)) && Flatten(blocks) == Content(script) && EachEnds(Content(script), blocks)
  {
    CutEnds(Content(script));
    hide CutAt, Content, Breaks, EachEnds, EndsAt, Flatten;
    var src := new Source(script);
    var c := new Chunker(src);
    blocks := [];
    ghost var all := Content(script);
    while true
      invariant c.Valid() && c.src == src && fresh(c) && fresh(src) && fresh(c.buf) && c.pending == []
      invariant Cut(all) == blocks + Cut(Content(src.script))
      invariant Breaks(src.script) == Breaks(script)
      invariant c.eofSeen ==> Content(src.script) == [] && !Breaks(script)
      decreases |Content(src.script)|
    {
      ghost var rest := Content(src.script);
      var r := c.Next();
      match r {
        case Eof =>
          ok := true;
          assert rest == [] && Cut([]) == [];
          assert blocks + [] == blocks;
          return;
        case Failed =>
          ok := false;
          return;
        case Chunk(data) =>
          CutStep(rest);
          assert blocks + ([data] + Cut(Content(src.script))) == blocks + [data] + Cut(Content(src.script));
          blocks := blocks + [data];
      }
    }
  }

  lemma CutStep(s: Bytes)
    requires s != []
    ensures Cut(s) == [s[..CutAt(s, 0)]] + Cut(s[CutAt(s, 0)..]) && CutAt(s, 0) > 0
  {
    CutAtBounds(s, 0);
  }
}
