/** Bytes, content identifiers and the foreign functions (hash, text form) the storage engine rests on. */
module Common {
  type byte = x: int | 0 <= x < 256
  type Bytes = seq<byte>

  type u32 = x: int | 0 <= x < 0x1_0000_0000
  type i64 = x: int | -0x8000_0000_0000_0000 <= x < 0x8000_0000_0000_0000

  const TWO63 := 0x8000_0000_0000_0000
  const TWO64 := 0x1_0000_0000_0000_0000

  /** Codec tags are varints of at most nine bytes in a CID. */
  type Codec = x: int | 0 <= x < 0x8000_0000_0000_0000

  datatype Option<+T> = None | Some(value: T)
  datatype Result<+T, +E> = Ok(value: T) | Err(error: E)

  const CODEC_RAW: Codec := 0x55
  const CODEC_MEMFS: Codec := 0x72

  /** go-multihash refuses digests of 2 GiB and more; a multihash adds at most 15 bytes. */
  const MAX_HASH := 0x8000_0010

  /** A MID: codec tag plus multihash. The zero MID is the one with an empty multihash. */
  datatype Mid = Mid(codec: Codec, hash: Bytes) {
    predicate IsZero() { hash == [] }
  }

  datatype Block = Block(mid: Mid, data: Bytes)

  /** The hash function, the check on multihash envelopes and the public text form of a MID are foreign code; they enter
      every theorem as parameters. */
  datatype Env = Env(digest: Bytes -> Bytes, envelope: Bytes -> bool, text: Mid -> Bytes, parse: Bytes -> Option<Mid>) {
    /** `mid.FromBytes` */
    function FromBytes(data: Bytes): Mid { Mid(CODEC_RAW, digest(data)) }

    /** `mid.FromBytesWithCodec(data, CodecMemFS)` */
    function MemfsMid(data: Bytes): Mid { Mid(CODEC_MEMFS, digest(data)) }

    /** A MID that `FromMultihash` and `Parse` accept. */
    predicate Proper(m: Mid) { envelope(m.hash) }

    /** What go-multihash and go-cid guarantee: digests are accepted envelopes, those are neither empty nor oversized,
        and parsing inverts printing. */
    ghost predicate Sound() {
      && (forall d :: envelope(digest(d)))
      && (forall h :: envelope(h) ==> h != [] && |h| <= MAX_HASH)
      && (forall m: Mid :: Proper(m) ==> parse(text(m)) == Some(m))
    }

    lemma DigestProper(d: Bytes)
      requires Sound()
      ensures envelope(digest(d))
    {
    }

    lemma ProperNotEmpty(m: Mid)
      requires Sound() && Proper(m)
      ensures m.hash != []
    {
    }

    /** The hash has no collision among the given payloads. */
    ghost predicate CollisionFree(payloads: set<Bytes>) {
      forall x, y :: x in payloads && y in payloads && digest(x) == digest(y) ==> x == y
    }
  }

  /** A store that re-hashes on write only ever holds payloads that match their key. */
  ghost predicate Verified(env: Env, bs: map<Mid, Bytes>) {
    forall m :: m in bs ==> env.digest(bs[m]) == m.hash
  }

  function Min(a: int, b: int): int { if a <= b then a else b }

  function Max(a: int, b: int): int { if a >= b then a else b }

  function Zeros(n: nat): (r: Bytes)
    ensures |r| == n && forall i :: 0 <= i < n ==> r[i] == 0
  {
    seq(n, i => 0)
  }

  lemma {:induction false} MulGap(d: nat, x: nat, y: nat)
    requires x < y
    ensures d * x + d <= d * y
  {
    var e := y - x;
    assert d * y == d * x + d * e;
    assert d * e == d * (e - 1) + d;
    assert d * (e - 1) >= 0;
  }

  lemma QuotientUnique(n: nat, d: nat, q: nat, r: nat)
    requires d > 0 && n == d * q + r && r < d
    ensures n / d == q
  {
    var q' := n / d;
    if q' < q {
      MulGap(d, q', q);
    } else if q < q' {
      MulGap(d, q, q');
    }
  }

  function Pow2(e: nat): nat { if e == 0 then 1 else 2 * Pow2(e - 1) }

  /** Concatenation of a list of sequences. */
  function Flatten<T>(ss: seq<seq<T>>): seq<T> {
    if ss == [] then [] else ss[0] + Flatten(ss[1..])
  }

  lemma FlattenNothing(blocks: seq<Bytes>)
    requires blocks == []
    ensures Flatten(blocks) == []
  {
  }

  lemma FlattenHead(x: Bytes, rest: seq<Bytes>)
    ensures |Flatten([x] + rest)| == |x| + |Flatten(rest)|
  {
    assert ([x] + rest)[1..] == rest;
  }

  lemma {:induction false} FlattenAppend<T>(a: seq<seq<T>>, b: seq<seq<T>>)
    ensures Flatten(a + b) == Flatten(a) + Flatten(b)
  {
    if a == [] {
      assert a + b == b;
    } else {
      assert (a + b)[1..] == a[1..] + b;
      FlattenAppend(a[1..], b);
    }
  }

  lemma FlattenSnoc<T>(a: seq<seq<T>>, x: seq<T>)
    ensures Flatten(a + [x]) == Flatten(a) + x
  {
    FlattenAppend(a, [x]);
    assert Flatten([x]) == x + Flatten([]);
  }

  /** `f` applied to each element, results concatenated. */
  function MapConcat<T, U>(f: T -> seq<U>, s: seq<T>): seq<U> {
    if s == [] then [] else f(s[0]) + MapConcat(f, s[1..])
  }

  lemma {:induction false} MapConcatAppend<T, U>(f: T -> seq<U>, a: seq<T>, b: seq<T>)
    ensures MapConcat(f, a + b) == MapConcat(f, a) + MapConcat(f, b)
  {
    if a == [] {
      assert a + b == b;
    } else {
      assert (a + b)[1..] == a[1..] + b;
      MapConcatAppend(f, a[1..], b);
    }
  }

  lemma MapConcatSnoc<T, U>(f: T -> seq<U>, s: seq<T>)
    requires s != []
    ensures MapConcat(f, s) == MapConcat(f, s[..|s| - 1]) + f(s[|s| - 1])
  {
    var front, last := s[..|s| - 1], s[|s| - 1];
    assert s == front + [last];
    MapConcatAppend(f, front, [last]);
    assert MapConcat(f, [last]) == f(last) + MapConcat(f, []);
  }

  ghost predicate Distinct<T(!new)>(s: seq<T>) {
    forall i, j :: 0 <= i < j < |s| ==> s[i] != s[j]
  }

  ghost function Elems<T>(s: seq<T>): set<T> {
    set x | x in s
  }

  /** `s` without its `k`-th element. */
  function Drop<T>(s: seq<T>, k: nat): seq<T>
    requires k < |s|
  {
    s[..k] + s[k + 1..]
  }

  /** `s` without every occurrence of `x`. */
  function Without<T(==)>(s: seq<T>, x: T): seq<T> {
    if s == [] then [] else if s[0] == x then Without(s[1..], x) else [s[0]] + Without(s[1..], x)
  }

  lemma {:induction false} WithoutElems<T(!new)>(s: seq<T>, x: T)
    requires Distinct(s)
    ensures Distinct(Without(s, x)) && Elems(Without(s, x)) == Elems(s) - {x}
  {
    if s != [] {
      WithoutElems(s[1..], x);
      assert Elems(s) == {s[0]} + Elems(s[1..]);
      var r := Without(s[1..], x);
      assert Elems([s[0]] + r) == {s[0]} + Elems(r);
      forall i | 0 <= i < |r| ensures r[i] != s[0] {
        assert r[i] in Elems(r) && r[i] in s[1..];
      }
    }
  }
}
