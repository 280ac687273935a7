/** A concrete world that meets every assumption about foreign code: digests of 34 bytes without collision among small
    payloads, a text form of 62 characters, and an injective node encoding. */
module Witness {
  import opened Common
  import opened Wire
  import opened Carry
  import opened DagBuild
  import opened DagResolve
  import opened MemfsBuild
  import opened StoreWalk
  import opened SealedDag
  import opened SealedFile
  import opened Gc

  // ------------------------------------------------------ digest and text

  const SMALL := 16

  /** Two seven-bit bytes for each byte. */
  function Nibbles(d: Bytes): (r: Bytes)
    ensures |r| == 2 * |d| && forall i :: 0 <= i < |r| ==> r[i] < 16
  {
    if d == [] then [] else [d[0] / 16, d[0] % 16] + Nibbles(d[1..])
  }

  /** Small payloads are spelled out, one chosen large payload has a digest of its own, all others share one. */
  function Digest(special: Bytes, d: Bytes): (r: Bytes)
    ensures |r| == 34 && forall i :: 0 <= i < 34 ==> r[i] < 0x80
  {
    if |d| <= SMALL then Nibbles(d) + Zeros(33 - 2 * |d|) + [|d|]
    else Zeros(33) + [if d == special then SMALL + 2 else SMALL + 1]
  }

  lemma DigestTag(special: Bytes, d: Bytes)
    ensures Digest(special, d)[33] == if |d| <= SMALL then |d| else if d == special then SMALL + 2 else SMALL + 1
  {
  }

  lemma {:induction false} NibblesInjective(a: Bytes, b: Bytes)
    requires |a| == |b| && Nibbles(a) == Nibbles(b)
    ensures a == b
  {
    if a != [] {
      var na, nb := Nibbles(a), Nibbles(b);
      assert na[0] == nb[0] && na[1] == nb[1] && na[2..] == Nibbles(a[1..]) && nb[2..] == Nibbles(b[1..]);
      NibblesInjective(a[1..], b[1..]);
      assert a[0] == b[0];
      assert a == [a[0]] + a[1..] && b == [b[0]] + b[1..];
    }
  }

  lemma SmallDigests(special: Bytes, a: Bytes, b: Bytes)
    requires |a| <= SMALL && |b| <= SMALL && Digest(special, a) == Digest(special, b)
    ensures a == b
  {
    DigestTag(special, a);
    DigestTag(special, b);
    assert Digest(special, a)[..2 * |a|] == Nibbles(a) && Digest(special, b)[..2 * |b|] == Nibbles(b);
    NibblesInjective(a, b);
  }

  predicate Envelope(h: Bytes) { |h| == 34 && forall i :: 0 <= i < 34 ==> h[i] < 0x80 }

  const WIDTH := 28

  /** `n` base-16 digits of `c`, least significant first, as ASCII. */
  function Digits(c: nat, n: nat): (r: Bytes)
    ensures |r| == n && forall i :: 0 <= i < n ==> 48 <= r[i] < 64
  {
    if n == 0 then [] else [48 + c % 16] + Digits(c / 16, n - 1)
  }

  function Value(t: Bytes): int {
    if t == [] then 0 else t[0] - 48 + 16 * Value(t[1..])
  }

  function Range(n: nat): nat { if n == 0 then 1 else 16 * Range(n - 1) }

  lemma {:induction false} DigitsRoundTrip(c: nat, n: nat)
    requires c < Range(n)
    ensures Value(Digits(c, n)) == c
  {
    if n > 0 {
      DigitsRoundTrip(c / 16, n - 1);
      assert Digits(c, n)[1..] == Digits(c / 16, n - 1);
    }
  }

  lemma {:induction false} RangeGrows(n: nat, m: nat)
    requires n <= m
    ensures Range(n) <= Range(m)
  {
    if n < m {
      RangeGrows(n, m - 1);
    }
  }

  lemma CodecFits(c: Codec)
    ensures c < Range(WIDTH)
  {
    assert Range(4) == 0x1_0000;
    assert Range(8) == 0x1_0000_0000;
    assert Range(12) == 0x1_0000_0000_0000;
    assert Range(16) == 0x1_0000_0000_0000_0000;
    RangeGrows(16, WIDTH);
  }

  lemma {:induction false} AsciiIsUtf8(t: Bytes)
    requires forall i :: 0 <= i < |t| ==> t[i] < 0x80
    ensures ValidUtf8(t)
  {
    if t != [] {
      AsciiIsUtf8(t[1..]);
    }
  }

  function Text(m: Mid): Bytes { Digits(m.codec, WIDTH) + m.hash }

  function Parse(t: Bytes): Option<Mid> {
    if |t| >= WIDTH && 0 <= Value(t[..WIDTH]) < 0x8000_0000_0000_0000 then Some(Mid(Value(t[..WIDTH]), t[WIDTH..])) else None
  }

  function World(special: Bytes): Env { Env(d => Digest(special, d), h => Envelope(h), m => Text(m), t => Parse(t)) }

  lemma TextRoundTrip(m: Mid)
    ensures Parse(Text(m)) == Some(m)
    ensures Envelope(m.hash) ==> ValidUtf8(Text(m)) && |Text(m)| == 62
  {
    hide ValidUtf8, Digits, Value, Range;
    CodecFits(m.codec);
    DigitsRoundTrip(m.codec, WIDTH);
    assert Text(m)[..WIDTH] == Digits(m.codec, WIDTH) && Text(m)[WIDTH..] == m.hash;
    if Envelope(m.hash) {
      AsciiIsUtf8(Text(m));
    }
  }

  // --------------------------------------------------------- node encoding

  /** Numbers in unary, each ended by a zero. */
  function Unary(ns: seq<nat>): Bytes {
    if ns == [] then [] else Ones(ns[0]) + [0] + Unary(ns[1..])
  }

  function Ones(n: nat): (r: Bytes)
    ensures |r| == n && forall i :: 0 <= i < n ==> r[i] == 1
  {
    seq(n, i => 1)
  }

  lemma {:induction false} UnaryInjective(a: seq<nat>, b: seq<nat>)
    requires Unary(a) == Unary(b)
    ensures a == b
  {
    if a != [] && b != [] {
      var ua, ub := Unary(a), Unary(b);
      assert ua[a[0]] == 0 && ub[b[0]] == 0;
      assert forall i :: 0 <= i < a[0] ==> ua[i] == 1;
      assert forall i :: 0 <= i < b[0] ==> ub[i] == 1;
      assert a[0] == b[0];
      assert ua[a[0] + 1..] == Unary(a[1..]) && ub[b[0] + 1..] == Unary(b[1..]);
      UnaryInjective(a[1..], b[1..]);
      assert a == [a[0]] + a[1..] && b == [b[0]] + b[1..];
    }
  }

  function Bytewise(d: Bytes): (r: seq<nat>)
    ensures |r| == |d|
  {
    seq(|d|, i requires 0 <= i < |d| => d[i])
  }

  function Charwise(t: string): (r: seq<nat>)
    ensures |r| == |t|
  {
    seq(|t|, i requires 0 <= i < |t| => t[i] as int)
  }

  function KindNumber(k: Kind): nat {
    match k case Raw => 0 case File => 1 case Dir => 2 case Symlink => 3 case Metadata => 4
  }

  /** Every variable-length part is preceded by its length. */
  function BlockNumbers(bs: seq<BlockRef>): seq<nat> {
    if bs == [] then [] else [|bs[0].hash|] + Bytewise(bs[0].hash) + [bs[0].size] + BlockNumbers(bs[1..])
  }

  function EntryNumbers(es: seq<Entry>): seq<nat> {
    if es == [] then []
    else [|es[0].name|] + Charwise(es[0].name) + ([|es[0].hash|] + Bytewise(es[0].hash)
           + [KindNumber(es[0].kind), es[0].size] + EntryNumbers(es[1..]))
  }

  function Numbers(n: Node): seq<nat> {
    [KindNumber(n.kind), n.fileSize, n.mode, n.mtime + 0x8000_0000_0000_0000]
      + ([|n.data|] + Bytewise(n.data) + ([|n.mime|] + Charwise(n.mime)
      + ([|n.blocks|] + BlockNumbers(n.blocks) + ([|n.entries|] + EntryNumbers(n.entries)))))
  }

  lemma Cancel(a: seq<nat>, x: seq<nat>, b: seq<nat>, y: seq<nat>)
    requires |a| == |b| && a + x == b + y
    ensures a == b && x == y
  {
    assert (a + x)[..|a|] == a && (b + y)[..|b|] == b;
    assert (a + x)[|a|..] == x && (b + y)[|b|..] == y;
  }

  lemma CancelBytes(a: Bytes, x: seq<nat>, b: Bytes, y: seq<nat>)
    requires [|a|] + Bytewise(a) + x == [|b|] + Bytewise(b) + y
    ensures a == b && x == y
  {
    assert ([|a|] + Bytewise(a) + x)[0] == |a| && ([|b|] + Bytewise(b) + y)[0] == |b|;
    Cancel([|a|] + Bytewise(a), x, [|b|] + Bytewise(b), y);
    forall i | 0 <= i < |a| ensures a[i] == b[i] {
      assert ([|a|] + Bytewise(a))[i + 1] == a[i] && ([|b|] + Bytewise(b))[i + 1] == b[i];
    }
  }

  lemma CancelChars(a: string, x: seq<nat>, b: string, y: seq<nat>)
    requires [|a|] + Charwise(a) + x == [|b|] + Charwise(b) + y
    ensures a == b && x == y
  {
    assert ([|a|] + Charwise(a) + x)[0] == |a| && ([|b|] + Charwise(b) + y)[0] == |b|;
    Cancel([|a|] + Charwise(a), x, [|b|] + Charwise(b), y);
    forall i | 0 <= i < |a| ensures a[i] == b[i] {
      assert ([|a|] + Charwise(a))[i + 1] == a[i] as int && ([|b|] + Charwise(b))[i + 1] == b[i] as int;
    }
  }

  lemma {:induction false} CancelBlocks(a: seq<BlockRef>, x: seq<nat>, b: seq<BlockRef>, y: seq<nat>)
    requires |a| == |b| && BlockNumbers(a) + x == BlockNumbers(b) + y
    ensures a == b && x == y
  {
    hide Bytewise;
    if a != [] {
      var ra, rb := BlockNumbers(a[1..]) + x, BlockNumbers(b[1..]) + y;
      assert BlockNumbers(a) + x == [|a[0].hash|] + Bytewise(a[0].hash) + ([a[0].size] + ra);
      assert BlockNumbers(b) + y == [|b[0].hash|] + Bytewise(b[0].hash) + ([b[0].size] + rb);
      CancelBytes(a[0].hash, [a[0].size] + ra, b[0].hash, [b[0].size] + rb);
      Cancel([a[0].size], ra, [b[0].size], rb);
      assert [a[0].size][0] == [b[0].size][0];
      CancelBlocks(a[1..], x, b[1..], y);
      assert a == [a[0]] + a[1..] && b == [b[0]] + b[1..];
    } else {
      assert BlockNumbers(a) + x == x && BlockNumbers(b) + y == y;
    }
  }

  lemma {:induction false} EntriesInjective(a: seq<Entry>, b: seq<Entry>)
    requires |a| == |b| && EntryNumbers(a) == EntryNumbers(b)
    ensures a == b
  {
    hide Bytewise, Charwise;
    if a != [] {
      var ra, rb := EntryNumbers(a[1..]), EntryNumbers(b[1..]);
      var ta, tb := [KindNumber(a[0].kind), a[0].size], [KindNumber(b[0].kind), b[0].size];
      CancelChars(a[0].name, [|a[0].hash|] + Bytewise(a[0].hash) + ta + ra, b[0].name, [|b[0].hash|] + Bytewise(b[0].hash) + tb + rb);
      assert [|a[0].hash|] + Bytewise(a[0].hash) + ta + ra == [|a[0].hash|] + Bytewise(a[0].hash) + (ta + ra);
      assert [|b[0].hash|] + Bytewise(b[0].hash) + tb + rb == [|b[0].hash|] + Bytewise(b[0].hash) + (tb + rb);
      CancelBytes(a[0].hash, ta + ra, b[0].hash, tb + rb);
      Cancel(ta, ra, tb, rb);
      assert ta[0] == tb[0] && ta[1] == tb[1];
      EntriesInjective(a[1..], b[1..]);
      assert a == [a[0]] + a[1..] && b == [b[0]] + b[1..];
    }
  }

  lemma NumbersInjective(a: Node, b: Node)
    requires Numbers(a) == Numbers(b)
    ensures a == b
  {
    hide Bytewise, Charwise, BlockNumbers, EntryNumbers;
    var ha := [KindNumber(a.kind), a.fileSize, a.mode, a.mtime + 0x8000_0000_0000_0000];
    var hb := [KindNumber(b.kind), b.fileSize, b.mode, b.mtime + 0x8000_0000_0000_0000];
    var ea, eb := [|a.entries|] + EntryNumbers(a.entries), [|b.entries|] + EntryNumbers(b.entries);
    var ba, bb := [|a.blocks|] + BlockNumbers(a.blocks) + ea, [|b.blocks|] + BlockNumbers(b.blocks) + eb;
    var ma, mb := [|a.mime|] + Charwise(a.mime) + ba, [|b.mime|] + Charwise(b.mime) + bb;
    Cancel(ha, [|a.data|] + Bytewise(a.data) + ma, hb, [|b.data|] + Bytewise(b.data) + mb);
    assert ha[0] == hb[0] && ha[1] == hb[1] && ha[2] == hb[2] && ha[3] == hb[3];
    CancelBytes(a.data, ma, b.data, mb);
    CancelChars(a.mime, ba, b.mime, bb);
    assert ba == [|a.blocks|] + (BlockNumbers(a.blocks) + ea) && bb == [|b.blocks|] + (BlockNumbers(b.blocks) + eb);
    Cancel([|a.blocks|], BlockNumbers(a.blocks) + ea, [|b.blocks|], BlockNumbers(b.blocks) + eb);
    assert [|a.blocks|][0] == [|b.blocks|][0];
    CancelBlocks(a.blocks, ea, b.blocks, eb);
    Cancel([|a.entries|], EntryNumbers(a.entries), [|b.entries|], EntryNumbers(b.entries));
    assert [|a.entries|][0] == [|b.entries|][0];
    EntriesInjective(a.entries, b.entries);
  }

  function Encode(n: Node): Bytes { Unary(Numbers(n)) }

  ghost function Decode(d: Bytes): Option<Node> {
    if n: Node :| Encode(n) == d then Some(n) else None
  }

  lemma NodeRoundTrip(n: Node)
    ensures Decode(Encode(n)) == Some(n)
  {
    hide Unary, Numbers;
    var found := Decode(Encode(n));
    assert exists k: Node :: Encode(k) == Encode(n);
    assert found.Some? && Encode(found.value) == Encode(n);
    UnaryInjective(Numbers(found.value), Numbers(n));
    NumbersInjective(found.value, n);
  }

  // ---------------------------------------------------------- consistency

  ghost function WorldDecoders(special: Bytes): Decoders {
    Decoders(Fs(World(special), n => Encode(n), d => Decode(d)), d => None)
  }

  /** All assumptions on hash, envelope, text form, node encoding and decoders can be met at once, together with freedom
      from collisions among all payloads of up to 16 bytes. */
  lemma AssumptionsAreConsistent(special: Bytes, payloads: set<Bytes>)
    requires forall d :: d in payloads ==> |d| <= SMALL
    ensures Ready(WorldDecoders(special)) && FileReady(WorldDecoders(special))
    ensures World(special).CollisionFree(payloads)
  {
    hide ValidUtf8, Digest, Text, Parse, Encode, Decode;
    var env := World(special);
    forall m: Mid | env.Proper(m)
      ensures env.parse(env.text(m)) == Some(m) && ValidUtf8(env.text(m)) && |env.text(m)| == 62
    {
      TextRoundTrip(m);
    }
    forall n: Node ensures Decode(Encode(n)) == Some(n) { NodeRoundTrip(n); }
    forall a, b | a in payloads && b in payloads && Digest(special, a) == Digest(special, b) ensures a == b {
      SmallDigests(special, a, b);
    }
  }

  lemma ReadyParts(dec: Decoders)
    requires Ready(dec)
    ensures dec.fs.env.Sound() && PlainText(dec.fs.env)
  {
  }

  lemma SevenIsALeaf()
    ensures IsInternalNode([7]) == None
  {
  }

  // ------------------------------------------------- a sealed DAG that loses a chunk

  /** A MID that is stored nowhere, a chunk that decodes leniently to a link to it, and the world in which that chunk has
      a digest of its own. */
  function Absent(): Mid { Mid(CODEC_RAW, Digest([], [0])) }

  function Lenient(): Bytes { LenientChunk(Text(Absent()), [0]) }

  function Pair(env: Env): (r: seq<Chunk>)
    ensures |r| == 2
  {
    AsChunks(env, [Lenient()] + [[7]])
  }

  function PairNode(env: Env): Block { NodeBlock(env, Leaves(Pair(env))) }

  function PairView(env: Env): BlockMap {
    map[env.digest(Lenient()) := Lenient()][env.digest([7]) := [7]][PairNode(env).mid.hash := PairNode(env).data]
  }

  lemma LenientSize()
    ensures SMALL < |Lenient()| == 67
  {
    TextRoundTrip(Absent());
    assert Varint(62) == [62] && Varint(1) == [1];
  }

  lemma PairNodeSize(env: Env)
    requires Ready(WorldDecoders(Lenient())) && env == World(Lenient())
    ensures |PairNode(env).data| == 128
  {
    hide Digest, Text, Parse, Lenient;
    var dec, leaves := WorldDecoders(Lenient()), Leaves(Pair(env));
    forall i | 0 <= i < 2 ensures CompactMid(env, leaves[i]) { }
    BuiltNodeIsInternal(dec, leaves);
  }

  /** Four different keys. */
  lemma PairKeys(env: Env)
    requires Ready(WorldDecoders(Lenient())) && env == World(Lenient())
    ensures env.digest(Lenient()) != env.digest([7]) && env.digest(Lenient()) != PairNode(env).mid.hash
    ensures env.digest([7]) != PairNode(env).mid.hash
    ensures Absent().hash !in {env.digest(Lenient()), env.digest([7]), PairNode(env).mid.hash}
  {
    hide Lenient, NodeBlock;
    LenientSize();
    PairNodeSize(env);
    DigestTag(Lenient(), Lenient());
    DigestTag(Lenient(), [7]);
    DigestTag(Lenient(), PairNode(env).data);
    DigestTag([], [0]);
    PairNodeDigest(env);
    assert Absent().hash == Digest(Lenient(), [0]);
    if Absent().hash == env.digest([7]) {
      SmallDigests(Lenient(), [0], [7]);
    }
  }

  lemma PairNodeDigest(env: Env)
    ensures PairNode(env).mid.hash == env.digest(PairNode(env).data)
  {
  }

  lemma PairViewHolds(env: Env)
    requires Ready(WorldDecoders(Lenient())) && env == World(Lenient())
    ensures ViewHolds(PairView(env), DagBlocks(env, Pair(env))) && Absent().hash !in PairView(env)
    ensures DagBlocks(env, Pair(env)) == LeafBlocks(Pair(env)) + {PairNode(env)}
  {
    hide Lenient, NodeBlock, Digest, DagTree, BatchBlocks;
    PairKeys(env);
    OneLevelRoot(env, Leaves(Pair(env)));
    forall b | b in LeafBlocks(Pair(env)) ensures b.mid.hash in PairView(env) && PairView(env)[b.mid.hash] == b.data {
      var i :| 0 <= i < 2 && b == ChunkBlock(Pair(env)[i]);
    }
  }

  function PairRecords(env: Env): Records {
    Records(map[PairNode(env).mid.hash := Seal(CODEC_RAW, false)], map[], map[])
  }

  function Mids(blocks: set<Block>): set<Mid> { set b | b in blocks :: b.mid }

  /** The DAG over the pair is built, stored and readable. */
  lemma PairResolves(env: Env)
    requires Ready(WorldDecoders(Lenient())) && env == World(Lenient())
    ensures AllGood(env, Pair(env)) && BatchRoot(DagTree(env), 0, Leaves(Pair(env))) == PairNode(env).mid
    ensures Stream(env, Seen(PairView(env), Mids(DagBlocks(env, Pair(env)))), PairNode(env).mid, 2)
         == Outcome(Flatten([Lenient()] + [[7]]), Done)
  {
    hide Digest, Text, Parse, NodeBlock, DagTree, BatchRoot, DagBlocks, Stream, IsInternalNode, Ready, LenientChunk, PairView;
    var dec, payloads := WorldDecoders(Lenient()), [Lenient()] + [[7]];
    ReadyParts(dec);
    PairViewHolds(env);
    SevenIsALeaf();
    LenientSize();
    OneLevelRoot(env, Leaves(Pair(env)));
    ChunksAreGood(env, payloads);
    AbsentIsProper(env);
    assert Height(2) == 1;
    LenientChunkResolves(dec, PairView(env), Absent(), [0], [[7]], Mids(DagBlocks(env, Pair(env))), 2);
  }

  lemma AbsentIsProper(env: Env)
    requires env == World(Lenient())
    ensures env.Proper(Absent()) && env.text(Absent()) == Text(Absent())
  {
    hide Text, Lenient;
  }

  lemma PairLosesSeven(env: Env, now: int)
    requires Ready(WorldDecoders(Lenient())) && env == World(Lenient())
    ensures env.digest([7]) !in Collected(WorldDecoders(Lenient()), PairView(env), PairRecords(env), 0, now)
  {
    hide Digest, Text, Parse, NodeBlock, DagTree, BatchRoot, DagBlocks, Ready, Collected, LenientChunk, PairView, Roots;
    var dec := WorldDecoders(Lenient());
    PairViewHolds(env);
    PairKeys(env);
    PairRoots(env);
    LenientSize();
    OneLevelRoot(env, Leaves(Pair(env)));
    AbsentIsProper(env);
    LenientChunkLosesTheRest(dec, PairView(env), PairRecords(env), now, Absent(), [0], [[7]]);
  }

  /** The failing input, in full: two chunks, all blocks stored, the root sealed. The DAG resolves; after a run with minAge
      0 the second chunk is gone. */
  lemma LossIsReal(now: int)
    ensures
      var dec := WorldDecoders(Lenient());
      var env := World(Lenient());
      var root := PairNode(env).mid;
      && Ready(dec) && AllGood(env, Pair(env)) && ViewHolds(PairView(env), DagBlocks(env, Pair(env)))
      && BatchRoot(DagTree(env), 0, Leaves(Pair(env))) == root && Roots(dec, PairRecords(env)) == {root}
      && Stream(env, Seen(PairView(env), Mids(DagBlocks(env, Pair(env)))), root, 2) == Outcome(Flatten([Lenient()] + [[7]]), Done)
      && env.digest([7]) !in Collected(dec, PairView(env), PairRecords(env), 0, now)
  {
    hide Ready, AllGood, ViewHolds, BatchRoot, Roots, Stream, Collected, World, PairNode, PairView, Pair, PairRecords, DagBlocks, Lenient;
    AssumptionsAreConsistent(Lenient(), {});
    var env := World(Lenient());
    PairViewHolds(env);
    PairRoots(env);
    PairResolves(env);
    PairLosesSeven(env, now);
  }

  lemma PairRoots(env: Env)
    requires Ready(WorldDecoders(Lenient())) && env == World(Lenient())
    ensures Roots(WorldDecoders(Lenient()), PairRecords(env)) == {PairNode(env).mid}
  {
    hide Digest, Lenient;
  }

  // ------------------------------------------------------ the round trip

  /** And so can the hypotheses of the round trip, by a one-byte input. */
  lemma RoundTripIsNotVacuous()
    ensures
      var env := World([]);
      var chunk := DagBuild.Chunk(env.FromBytes([7]), [7]);
      && env.Sound() && PlainText(env) && AllGood(env, [chunk])
      && Stores(map[chunk.mid := chunk.data], DagBlocks(env, [chunk]))
      && IsInternalNode(Payloads([chunk])[0]) == None
  {
    AssumptionsAreConsistent([], {});
    hide World, IsInternalNode, Env.Sound, PlainText, DagBlocks, AllGood, Ready;
    ReadyParts(WorldDecoders([]));
    OneByteMeetsAll(WorldDecoders([]).fs.env);
    assert WorldDecoders([]).fs.env == World([]);
  }

  lemma OneByteMeetsAll(env: Env)
    requires env.Sound()
    ensures
      var chunk := DagBuild.Chunk(env.FromBytes([7]), [7]);
      && AllGood(env, [chunk])
      && Stores(map[chunk.mid := chunk.data], DagBlocks(env, [chunk]))
      && IsInternalNode(Payloads([chunk])[0]) == None
  {
    SevenIsALeaf();
    hide IsInternalNode, BatchBlocks, DagTree, LeafBlocks;
    var chunk := DagBuild.Chunk(env.FromBytes([7]), [7]);
    env.DigestProper([7]);
    env.ProperNotEmpty(chunk.mid);
    NothingAbove(env, Leaves([chunk]));
    OneLeaf(chunk.mid, chunk.data);
  }

  lemma OneLeaf(m: Mid, data: Bytes)
    ensures LeafBlocks([DagBuild.Chunk(m, data)]) == {Block(m, data)}
  {
    var input := [DagBuild.Chunk(m, data)];
    assert ChunkBlock(input[0]) in LeafBlocks(input);
  }

  lemma NothingAbove(env: Env, s: seq<Mid>)
    requires |s| == 1
    ensures BatchBlocks(DagTree(env), 0, s) == {}
  {
  }
}
