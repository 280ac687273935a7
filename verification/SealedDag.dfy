/** What the pieces give together: chunk, build, seal, collect garbage, resolve. */
module SealedDag {
  import opened Common
  import opened Carry
  import opened Wire
  import opened DagBuild
  import opened DagResolve
  import opened StoreWalk
  import opened Gc
  import opened Tower
  import FastCdc
  import Rabin

  // ------------------------------------------ the walk over a built DAG

  /** 32-byte digests: multihashes of 34 bytes; the text form of such a raw MID has 62 characters. */
  ghost predicate Compact(env: Env) {
    && (forall d :: |env.digest(d)| == 34)
    && (forall m: Mid :: CompactMid(env, m) ==> |env.text(m)| == 62)
  }

  predicate CompactMid(env: Env, m: Mid) { env.Proper(m) && m.codec == CODEC_RAW && |m.hash| == 34 }

  /** A repeated field of a decoded message comes from records of its own number; Blocks is field 9. */
  ghost predicate PlainDecoders(dec: Decoders) {
    forall d, x :: dec.descriptor(d) == Some(x) && x.blocks != [] ==> HasField(d, 9)
  }

  ghost predicate AllCompact(env: Env, s: seq<Mid>) {
    forall i :: 0 <= i < |s| ==> CompactMid(env, s[i])
  }

  lemma NodeIsNoDescriptor(dec: Decoders, links: seq<Bytes>)
    requires PlainDecoders(dec) && links != [] && forall i :: 0 <= i < |links| ==> |links[i]| < TWO63
    ensures
      var d := TryDescriptor(dec, MarshalLinks(links));
      d.Some? ==> d.value.blocks == []
  {
    hide NextRecord, HasField;
    var data := MarshalLinks(links);
    OnlyLinks(links, 9);
    assert data[0] == 0x0A;
    assert |data| >= 4 ==> data[..4][0] == 0x0A && MAGIC[0] == 0x4D;
  }

  lemma {:induction false} ParseTexts(env: Env, g: seq<Mid>)
    requires env.Sound() && forall i :: 0 <= i < |g| ==> env.Proper(g[i])
    ensures ParseAll(env, Texts(env, g)) == g
  {
    if g != [] {
      assert Texts(env, g)[1..] == Texts(env, g[1..]);
      ParseTexts(env, g[1..]);
    }
  }

  /** No internal node of a Build is mistaken for a large leaf: 174 records of 64 bytes are 11136 <= 16384. */
  lemma BuiltNodeIsInternal(dec: Decoders, g: seq<Mid>)
    requires dec.fs.env.Sound() && PlainText(dec.fs.env) && Compact(dec.fs.env) && PlainDecoders(dec)
    requires 1 <= |g| <= FANOUT && AllCompact(dec.fs.env, g)
    ensures |NodeData(dec.fs.env, g)| == 64 * |g| <= LARGE_LEAF
    ensures Classify(dec, CODEC_RAW, NodeData(dec.fs.env, g)) == Internal(g)
  {
    hide NextRecord, ValidUtf8, TryDescriptor, MarshalLinks, Merge, Env.Sound;
    var env, links := dec.fs.env, Texts(dec.fs.env, g);
    UniformSize(links, 62);
    NodeIsNoDescriptor(dec, links);
    MergeLinks(links, DagNode([], [], []));
    assert [] + links == links;
    ParseTexts(env, g);
  }

  /** The store holds these blocks, keyed by multihash. */
  ghost predicate ViewHolds(view: BlockMap, blocks: set<Block>) {
    forall b :: b in blocks ==> b.mid.hash in view && view[b.mid.hash] == b.data
  }

  ghost predicate Ready(dec: Decoders) {
    dec.fs.env.Sound() && PlainText(dec.fs.env) && Compact(dec.fs.env) && PlainDecoders(dec)
  }

  lemma NodeChildren(dec: Decoders, view: BlockMap, g: seq<Mid>)
    requires Ready(dec) && 1 <= |g| <= FANOUT && AllCompact(dec.fs.env, g)
    requires ViewHolds(view, {NodeBlock(dec.fs.env, g)})
    ensures Children(dec, view, NodeBlock(dec.fs.env, g).mid) == g && CompactMid(dec.fs.env, NodeBlock(dec.fs.env, g).mid)
  {
    hide Classify;
    BuiltNodeIsInternal(dec, g);
    assert NodeBlock(dec.fs.env, g) in {NodeBlock(dec.fs.env, g)};
  }

  /** All parents of a level, and their children. */
  lemma LevelChildren(dec: Decoders, view: BlockMap, level: nat, s: seq<Mid>)
    requires Ready(dec) && AllCompact(dec.fs.env, s)
    requires ViewHolds(view, LevelBlocks(DagTree(dec.fs.env), level, s, Groups(|s|)))
    ensures
      var ps := AllParents(DagTree(dec.fs.env), level, s);
      AllCompact(dec.fs.env, ps) && forall k :: 0 <= k < |ps| ==> Children(dec, view, ps[k]) == Group(s, k)
  {
    hide Children, NodeBlock;
    var t := DagTree(dec.fs.env);
    forall k | 0 <= k < Groups(|s|)
      ensures Children(dec, view, t.parent(level, Group(s, k))) == Group(s, k) && CompactMid(dec.fs.env, t.parent(level, Group(s, k)))
    {
      var g := Group(s, k);
      assert t.block(level, g) in LevelBlocks(t, level, s, Groups(|s|));
      assert forall i :: 0 <= i < |g| ==> g[i] == s[k * FANOUT + i];
      NodeChildren(dec, view, g);
    }
  }

  /** From the root the walk reaches every entry and every block the batch reduction writes. */
  lemma {:induction false} RootReaches(dec: Decoders, view: BlockMap, level: nat, s: seq<Mid>)
    requires Ready(dec) && AllCompact(dec.fs.env, s) && s != []
    requires ViewHolds(view, BatchBlocks(DagTree(dec.fs.env), level, s))
    ensures
      var t := DagTree(dec.fs.env);
      var root := BatchRoot(t, level, s);
      && (forall i :: 0 <= i < |s| ==> Reach(dec, view, root, s[i]))
      && (forall b :: b in BatchBlocks(t, level, s) ==> Reach(dec, view, root, b.mid))
    decreases |s|
  {
    hide Reach, Children, DagTree, LevelBlocks;
    var t := DagTree(dec.fs.env);
    var root := BatchRoot(t, level, s);
    if |s| == 1 {
      ReachSelf(dec, view, s[0]);
    } else {
      var ps := AllParents(t, level, s);
      var here := LevelBlocks(t, level, s, Groups(|s|));
      assert ViewHolds(view, here);
      LevelChildren(dec, view, level, s);
      RootReaches(dec, view, level + 1, ps);
      forall i | 0 <= i < |s| ensures Reach(dec, view, root, s[i]) {
        var k := i / FANOUT;
        assert Reach(dec, view, root, ps[k]);
        assert Group(s, k)[i - k * FANOUT] == s[i];
        ReachStep(dec, view, root, ps[k], s[i]);
      }
      LevelMids(dec.fs.env, level, s);
      forall b | b in here ensures Reach(dec, view, root, b.mid) {
        assert b.mid in ps;
      }
    }
  }

  lemma LevelMids(env: Env, level: nat, s: seq<Mid>)
    ensures forall b :: b in LevelBlocks(DagTree(env), level, s, Groups(|s|)) ==> b.mid in AllParents(DagTree(env), level, s)
  {
    var t, ps := DagTree(env), AllParents(DagTree(env), level, s);
    forall b | b in LevelBlocks(t, level, s, Groups(|s|)) ensures b.mid in ps {
      var k :| 0 <= k < Groups(|s|) && b == t.block(level, Group(s, k));
      assert ps[k] == b.mid;
    }
  }

  // ---------------------------------- which built DAGs the walk completes

  /** The walk does not look past this chunk, or all its links lead to is present: it is larger than the leaf limit,
      decodes to no links, or has the closure of its links in the store. */
  ghost predicate Settled(dec: Decoders, view: BlockMap, data: Bytes) {
    match Classify(dec, CODEC_RAW, data)
    case Leaf => true
    case Internal(cs) => forall c :: c in cs ==> Complete(dec, view, c)
  }

  ghost predicate AllSettled(dec: Decoders, view: BlockMap, payloads: seq<Bytes>) {
    forall i :: 0 <= i < |payloads| ==> Settled(dec, view, payloads[i])
  }

  /** The same for all chunks but the last. */
  ghost predicate EarlierSettled(dec: Decoders, view: BlockMap, payloads: seq<Bytes>) {
    forall i :: 0 <= i < |payloads| - 1 ==> Settled(dec, view, payloads[i])
  }

  // ------------------------------------------------ the DAG as a tower

  ghost function DagLevels(env: Env, level: nat, s: seq<Mid>): (t: seq<seq<Mid>>)
    requires s != []
    ensures t != [] && t[0] == s
    decreases |s|
  {
    if |s| == 1 then [s] else [s] + DagLevels(env, level + 1, AllParents(DagTree(env), level, s))
  }

  ghost predicate InBlocks(blocks: set<Block>, x: Mid) { exists b :: b in blocks && b.mid == x }

  lemma {:induction false} DagIsTower(dec: Decoders, view: BlockMap, level: nat, s: seq<Mid>)
    requires Ready(dec) && AllCompact(dec.fs.env, s) && s != []
    requires ViewHolds(view, BatchBlocks(DagTree(dec.fs.env), level, s))
    ensures
      var t := DagLevels(dec.fs.env, level, s);
      && IsTower(dec, view, t) && Tower.Root(t) == BatchRoot(DagTree(dec.fs.env), level, s)
    decreases |s|
  {
    hide Children, DagTree, LevelBlocks, Ready;
    if |s| > 1 {
      var t := DagTree(dec.fs.env);
      var ps, here := AllParents(t, level, s), LevelBlocks(t, level, s, Groups(|s|));
      assert ViewHolds(view, here);
      LevelChildren(dec, view, level, s);
      ParentsInView(dec, view, level, s);
      DagIsTower(dec, view, level + 1, ps);
      var up := DagLevels(dec.fs.env, level + 1, ps);
      var all := [s] + up;
      assert all[1..] == up && all[1] == ps;
    }
  }

  /** The levels above the entries list exactly the internal nodes. */
  lemma {:induction false} DagLevelsAre(env: Env, level: nat, s: seq<Mid>)
    requires s != []
    ensures
      var t := DagLevels(env, level, s);
      && (forall b :: b in BatchBlocks(DagTree(env), level, s) ==> InTower(t, b.mid))
      && (forall j, k :: 0 < j < |t| && 0 <= k < |t[j]| ==> InBlocks(BatchBlocks(DagTree(env), level, s), t[j][k]))
    decreases |s|
  {
    hide DagTree, LevelBlocks;
    if |s| > 1 {
      var d := DagTree(env);
      var ps, here := AllParents(d, level, s), LevelBlocks(d, level, s, Groups(|s|));
      var above := BatchBlocks(d, level + 1, ps);
      DagLevelsAre(env, level + 1, ps);
      LevelMids(env, level, s);
      MidsOfLevel(env, level, s);
      var up := DagLevels(env, level + 1, ps);
      var t := [s] + up;
      forall b: Block | b in here + above ensures InTower(t, b.mid) {
        if b in here {
          assert b.mid in t[1];
        } else {
          var j :| 0 <= j < |up| && b.mid in up[j];
          assert t[j + 1] == up[j];
        }
      }
      forall j, k | 0 < j < |t| && 0 <= k < |t[j]| ensures InBlocks(here + above, t[j][k]) {
        assert t[j] == up[j - 1];
        if j == 1 {
          assert InBlocks(here, ps[k]);
        } else {
          assert InBlocks(above, up[j - 1][k]);
        }
      }
    }
  }

  lemma MidsOfLevel(env: Env, level: nat, s: seq<Mid>)
    ensures
      var ps := AllParents(DagTree(env), level, s);
      forall k :: 0 <= k < |ps| ==> InBlocks(LevelBlocks(DagTree(env), level, s, Groups(|s|)), ps[k])
  {
    hide NodeBlock;
    var t, ps := DagTree(env), AllParents(DagTree(env), level, s);
    forall k | 0 <= k < |ps| ensures InBlocks(LevelBlocks(t, level, s, Groups(|s|)), ps[k]) {
      var b := t.block(level, Group(s, k));
      assert b in LevelBlocks(t, level, s, Groups(|s|)) && b.mid == ps[k];
    }
  }

  lemma ParentsInView(dec: Decoders, view: BlockMap, level: nat, s: seq<Mid>)
    requires ViewHolds(view, LevelBlocks(DagTree(dec.fs.env), level, s, Groups(|s|)))
    ensures
      var ps := AllParents(DagTree(dec.fs.env), level, s);
      forall k :: 0 <= k < |ps| ==> ps[k].hash in view
  {
    hide NodeBlock;
    var t := DagTree(dec.fs.env);
    forall k | 0 <= k < Groups(|s|) ensures t.parent(level, Group(s, k)).hash in view {
      assert t.block(level, Group(s, k)) in LevelBlocks(t, level, s, Groups(|s|));
    }
  }

  lemma RawChunkComplete(dec: Decoders, view: BlockMap, m: Mid, data: Bytes)
    requires m.codec == CODEC_RAW && m.hash in view && view[m.hash] == data
    ensures Complete(dec, view, m) <==> Settled(dec, view, data)
  {
    hide Classify, Complete;
    CompleteUnfold(dec, view, m);
  }

  ghost predicate RawChunks(env: Env, input: seq<Chunk>) {
    forall i :: 0 <= i < |input| ==> Fault(env, input[i]) == None && Leaves(input)[i].codec == CODEC_RAW
  }

  lemma RawChunksCompact(dec: Decoders, input: seq<Chunk>)
    requires Ready(dec) && RawChunks(dec.fs.env, input)
    ensures AllCompact(dec.fs.env, Leaves(input)) && AllGood(dec.fs.env, input)
  {
    forall i | 0 <= i < |input| ensures CompactMid(dec.fs.env, Leaves(input)[i]) {
      assert Fault(dec.fs.env, input[i]) == None;
    }
  }

  /** A leaf is complete exactly when its chunk is settled. */
  lemma LeavesSettled(dec: Decoders, view: BlockMap, input: seq<Chunk>)
    requires RawChunks(dec.fs.env, input) && ViewHolds(view, LeafBlocks(input))
    ensures EachComplete(dec, view, Leaves(input)) <==> AllSettled(dec, view, Payloads(input))
    ensures EachComplete(dec, view, Earlier(Leaves(input))) <==> EarlierSettled(dec, view, Payloads(input))
  {
    hide Complete, Settled;
    var leaves := Leaves(input);
    forall i | 0 <= i < |input| ensures Complete(dec, view, leaves[i]) <==> Settled(dec, view, Payloads(input)[i]) {
      assert ChunkBlock(input[i]) in LeafBlocks(input);
      RawChunkComplete(dec, view, leaves[i], Payloads(input)[i]);
    }
    if EachComplete(dec, view, leaves) {
      forall i | 0 <= i < |input| ensures Settled(dec, view, Payloads(input)[i]) {
        assert Complete(dec, view, leaves[i]);
      }
    }
    if EachComplete(dec, view, Earlier(leaves)) {
      forall i | 0 <= i < |input| - 1 ensures Settled(dec, view, Payloads(input)[i]) {
        assert Complete(dec, view, Earlier(leaves)[i]);
      }
    }
  }

  /** For the walk a built DAG is complete exactly when every chunk is settled. A chunk that is no internal node to the
      resolver may still be one to the walk, which decodes leniently. */
  lemma BuiltCompleteIff(dec: Decoders, view: BlockMap, input: seq<Chunk>)
    requires Ready(dec) && input != [] && RawChunks(dec.fs.env, input)
    requires ViewHolds(view, DagBlocks(dec.fs.env, input))
    ensures Complete(dec, view, BatchRoot(DagTree(dec.fs.env), 0, Leaves(input))) <==> AllSettled(dec, view, Payloads(input))
  {
    hide Complete, Settled, DagTree, BatchBlocks, BatchRoot, Ready, EachComplete, LeafBlocks;
    RawChunksCompact(dec, input);
    DagIsTower(dec, view, 0, Leaves(input));
    TowerComplete(dec, view, DagLevels(dec.fs.env, 0, Leaves(input)));
    LeavesSettled(dec, view, input);
  }

  // ------------------------------------------------ GC, then Resolve

  /** A store keyed by multihash, as the resolver sees it through a set of MIDs. */
  function Seen(view: BlockMap, mids: set<Mid>): map<Mid, Bytes> {
    map m | m in mids && m.hash in view :: view[m.hash]
  }

  ghost function DagBlocks(env: Env, input: seq<Chunk>): set<Block> {
    LeafBlocks(input) + BatchBlocks(DagTree(env), 0, Leaves(input))
  }

  lemma BlockInTower(env: Env, input: seq<Chunk>, b: Block)
    requires input != [] && b in DagBlocks(env, input)
    ensures InTower(DagLevels(env, 0, Leaves(input)), b.mid)
  {
    hide DagTree, BatchBlocks;
    DagLevelsAre(env, 0, Leaves(input));
    if b in LeafBlocks(input) {
      var i :| 0 <= i < |input| && b == ChunkBlock(input[i]);
      assert Leaves(input)[i] == b.mid;
    }
  }

  /** Every block of a sealed DAG survives a GC run if all chunks but the last are settled, whatever the minimum age,
      whatever the other seals and whatever else is collected. */
  lemma SealedDagSurvives(dec: Decoders, view: BlockMap, meta: Records, minAge: int, now: int, input: seq<Chunk>)
    requires Ready(dec) && input != [] && RawChunks(dec.fs.env, input)
    requires ViewHolds(view, DagBlocks(dec.fs.env, input)) && EarlierSettled(dec, view, Payloads(input))
    requires BatchRoot(DagTree(dec.fs.env), 0, Leaves(input)) in Roots(dec, meta)
    ensures ViewHolds(Collected(dec, view, meta, minAge, now), DagBlocks(dec.fs.env, input))
  {
    hide Roots, DagTree, BatchBlocks, BatchRoot, Collected, EarlierSettled, EachComplete, Ready, LeafBlocks, WalkFrom, InTower;
    var env := dec.fs.env;
    var root, t := BatchRoot(DagTree(env), 0, Leaves(input)), DagLevels(env, 0, Leaves(input));
    RawChunksCompact(dec, input);
    DagIsTower(dec, view, 0, Leaves(input));
    LeavesSettled(dec, view, input);
    WalkVisitsTower(dec, view, t);
    RootNotZero(dec, meta, root);
    forall b | b in DagBlocks(env, input)
      ensures b.mid.hash in Collected(dec, view, meta, minAge, now)
      ensures Collected(dec, view, meta, minAge, now)[b.mid.hash] == b.data
    {
      BlockInTower(env, input, b);
      VisitedSurvives(dec, view, meta, minAge, now, root, b.mid);
    }
  }

  /** No earlier chunk leads to the key of the last one, and no internal node has it. */
  ghost predicate LastApart(dec: Decoders, view: BlockMap, input: seq<Chunk>)
    requires input != []
  {
    var leaves := Leaves(input);
    var last := leaves[|leaves| - 1];
    && (forall i :: 0 <= i < |leaves| - 1 ==> Apart(dec, view, leaves[i], last))
    && (forall b :: b in BatchBlocks(DagTree(dec.fs.env), 0, leaves) ==> b.mid.hash != last.hash)
  }

  lemma LastApartIsClear(dec: Decoders, view: BlockMap, input: seq<Chunk>)
    requires input != [] && LastApart(dec, view, input)
    ensures Clear(dec, view, DagLevels(dec.fs.env, 0, Leaves(input)), Leaves(input)[|input| - 1])
  {
    hide Apart, DagTree, BatchBlocks, InBlocks;
    DagLevelsAre(dec.fs.env, 0, Leaves(input));
    var t: seq<seq<Mid>>, last: Mid := DagLevels(dec.fs.env, 0, Leaves(input)), Leaves(input)[|input| - 1];
    forall j, k | 0 < j < |t| && 0 <= k < |t[j]| ensures t[j][k].hash != last.hash {
      NodeInBlocks(dec.fs.env, Leaves(input), j, k);
      NodeIsApart(BatchBlocks(DagTree(dec.fs.env), 0, Leaves(input)), t[j][k], last);
    }
  }

  lemma NodeInBlocks(env: Env, s: seq<Mid>, j: nat, k: nat)
    requires s != [] && 0 < j < |DagLevels(env, 0, s)| && k < |DagLevels(env, 0, s)[j]|
    ensures InBlocks(BatchBlocks(DagTree(env), 0, s), DagLevels(env, 0, s)[j][k])
  {
    hide *;
    DagLevelsAre(env, 0, s);
    var t := DagLevels(env, 0, s);
    assert InBlocks(BatchBlocks(DagTree(env), 0, s), t[j][k]);
  }

  lemma NodeIsApart(blocks: set<Block>, m: Mid, last: Mid)
    requires InBlocks(blocks, m) && forall b :: b in blocks ==> b.mid.hash != last.hash
    ensures m.hash != last.hash
  {
  }

  /** And exactly then: a DAG that is the only sealed one, without erasure manifests, survives a run with minAge 0 exactly
      when all chunks but the last are settled. Otherwise the last chunk is lost. */
  lemma SealedDagSurvivesIff(dec: Decoders, view: BlockMap, meta: Records, now: int, input: seq<Chunk>)
    requires Ready(dec) && input != [] && RawChunks(dec.fs.env, input)
    requires ViewHolds(view, DagBlocks(dec.fs.env, input)) && LastApart(dec, view, input)
    requires Roots(dec, meta) == {BatchRoot(DagTree(dec.fs.env), 0, Leaves(input))} && meta.manifests == map[]
    ensures ViewHolds(Collected(dec, view, meta, 0, now), DagBlocks(dec.fs.env, input))
       <==> EarlierSettled(dec, view, Payloads(input))
    ensures !EarlierSettled(dec, view, Payloads(input)) ==>
      Leaves(input)[|input| - 1].hash !in Collected(dec, view, meta, 0, now)
  {
    hide Roots, DagTree, BatchBlocks, BatchRoot, Collected, EarlierSettled, Ready, LastApart, ViewHolds, DagBlocks;
    if EarlierSettled(dec, view, Payloads(input)) {
      SealedDagSurvives(dec, view, meta, 0, now, input);
    } else {
      UnsettledLosesLast(dec, view, meta, now, input);
      LastIsBlock(Collected(dec, view, meta, 0, now), dec.fs.env, input);
    }
  }

  lemma LastIsBlock(view: BlockMap, env: Env, input: seq<Chunk>)
    requires input != []
    ensures ViewHolds(view, DagBlocks(env, input)) ==> Leaves(input)[|input| - 1].hash in view
  {
    hide BatchBlocks, DagTree;
    assert ChunkBlock(input[|input| - 1]) in DagBlocks(env, input);
  }

  lemma UnsettledLosesLast(dec: Decoders, view: BlockMap, meta: Records, now: int, input: seq<Chunk>)
    requires Ready(dec) && input != [] && RawChunks(dec.fs.env, input)
    requires ViewHolds(view, DagBlocks(dec.fs.env, input)) && LastApart(dec, view, input)
    requires Roots(dec, meta) == {BatchRoot(DagTree(dec.fs.env), 0, Leaves(input))} && meta.manifests == map[]
    requires !EarlierSettled(dec, view, Payloads(input))
    ensures Leaves(input)[|input| - 1].hash !in Collected(dec, view, meta, 0, now)
  {
    hide Roots, DagTree, BatchBlocks, BatchRoot, Collected, EarlierSettled, EachComplete, Ready, WalkFrom, LastApart, Clear;
    RawChunksCompact(dec, input);
    DagIsTower(dec, view, 0, Leaves(input));
    LeavesSettled(dec, view, input);
    LastApartIsClear(dec, view, input);
    LastEntryVisitedIff(dec, view, DagLevels(dec.fs.env, 0, Leaves(input)));
    LastChunkLost(dec, view, meta, now, input);
  }

  lemma LastChunkLost(dec: Decoders, view: BlockMap, meta: Records, now: int, input: seq<Chunk>)
    requires Ready(dec) && |input| > 0 && LastApart(dec, view, input) && !EarlierSettled(dec, view, Payloads(input))
    requires Roots(dec, meta) == {BatchRoot(DagTree(dec.fs.env), 0, Leaves(input))} && meta.manifests == map[]
    requires
      var root := BatchRoot(DagTree(dec.fs.env), 0, Leaves(input));
      forall x :: x in WalkFrom(dec, view, root).visited ==> x.hash != Leaves(input)[|input| - 1].hash
    ensures Leaves(input)[|input| - 1].hash !in Collected(dec, view, meta, 0, now)
  {
    hide Roots, DagTree, BatchBlocks, Settled, Ready, WalkFrom, Apart, Marks;
    var root, h := BatchRoot(DagTree(dec.fs.env), 0, Leaves(input)), Leaves(input)[|input| - 1].hash;
    RootVisited(dec, view, root);
    NotSparedAtZero(dec, meta, h, now);
    if h in Marks(dec, view, meta) {
      OnlyVisitedMarked(dec, view, meta, root, h);
    }
  }

  lemma RootNotZero(dec: Decoders, meta: Records, root: Mid)
    requires Ready(dec) && root in Roots(dec, meta)
    ensures !root.IsZero()
  {
  }

  /** So the resolver still reads the whole input back. */
  lemma SealedDagStillResolves(dec: Decoders, view: BlockMap, meta: Records, minAge: int, now: int, input: seq<Chunk>,
                               mids: set<Mid>, depth: nat)
    requires Ready(dec) && input != [] && RawChunks(dec.fs.env, input)
    requires ViewHolds(view, DagBlocks(dec.fs.env, input)) && EarlierSettled(dec, view, Payloads(input))
    requires BatchRoot(DagTree(dec.fs.env), 0, Leaves(input)) in Roots(dec, meta)
    requires forall i :: 0 <= i < |input| ==> IsInternalNode(Payloads(input)[i]) == None
    requires forall b :: b in DagBlocks(dec.fs.env, input) ==> b.mid in mids
    requires depth > Height(|input|)
    ensures
      var after := Collected(dec, view, meta, minAge, now);
      Stream(dec.fs.env, Seen(after, mids), BatchRoot(DagTree(dec.fs.env), 0, Leaves(input)), depth)
        == Outcome(Flatten(Payloads(input)), Done)
  {
    hide Roots, DagTree, BatchBlocks, BatchRoot, Collected, Stream, IsInternalNode, LeafBlocks, EarlierSettled;
    SealedDagSurvives(dec, view, meta, minAge, now, input);
    RawChunksCompact(dec, input);
    var after := Collected(dec, view, meta, minAge, now);
    assert Stores(Seen(after, mids), DagBlocks(dec.fs.env, input));
    BuildThenResolve(dec.fs.env, Seen(after, mids), input, depth);
  }

  /** The same on the store itself: run the collector, then the resolver. */
  method CollectThenResolve(store: Store, minAge: int, now: int, ghost input: seq<Chunk>, root: Mid, mids: set<Mid>,
                            depth: nat, pipe: Pipe) returns (status: Status)
    requires Ready(store.dec) && input != [] && RawChunks(store.dec.fs.env, input)
    requires ViewHolds(store.View(), DagBlocks(store.dec.fs.env, input))
    requires EarlierSettled(store.dec, store.View(), Payloads(input))
    requires root == BatchRoot(DagTree(store.dec.fs.env), 0, Leaves(input)) && root in Roots(store.dec, store.meta)
    requires forall i :: 0 <= i < |input| ==> IsInternalNode(Payloads(input)[i]) == None
    requires forall b :: b in DagBlocks(store.dec.fs.env, input) ==> b.mid in mids
    requires depth > Height(|input|)
    modifies store, pipe
    ensures status == Done && pipe.written == old(pipe.written) + Flatten(Payloads(input))
  {
    hide Roots, DagTree, BatchRoot, Collected, Stream, IsInternalNode, DagBlocks, EarlierSettled, Ready, RawChunks, Marks, Swept, KeptAsAccounted;
    SealedDagStillResolves(store.dec, store.View(), store.meta, minAge, now, input, mids, depth);
    var freed := store.GCWithMinAge(minAge, now);
    status := DagResolve.Walk(store.dec.fs.env, Seen(store.dagNs + store.blockNs, mids), root, depth, pipe);
  }

  // ------------------------------- a chunk that decodes leniently to a link

  function AsChunks(env: Env, blocks: seq<Bytes>): (r: seq<Chunk>)
    ensures |r| == |blocks|
  {
    seq(|blocks|, i requires 0 <= i < |blocks| => DagBuild.Chunk(env.FromBytes(blocks[i]), blocks[i]))
  }

  lemma ChunksAreGood(env: Env, blocks: seq<Bytes>)
    requires env.Sound() && forall i :: 0 <= i < |blocks| ==> blocks[i] != []
    ensures AllGood(env, AsChunks(env, blocks)) && Payloads(AsChunks(env, blocks)) == blocks
  {
  }

  /** A link, then a Data field: no internal node to the resolver, which insists on the canonical form. */
  function LenientChunk(text: Bytes, filler: Bytes): Bytes { LinkRecord(text) + DataRecord(filler) }

  function DataRecord(body: Bytes): Bytes { [0x12] + Varint(|body|) + body }

  lemma NextDataRecord(body: Bytes)
    requires |body| < TWO63
    ensures NextRecord(DataRecord(body)) == Some(Record(2, Some(body), |DataRecord(body)|))
  {
    NextBytesRecord(18, body, []);
    assert DataRecord(body) + [] == DataRecord(body);
  }

  lemma LenientChunkDecodes(text: Bytes, filler: Bytes)
    requires |text| < TWO63 && ValidUtf8(text) && filler != [] && |filler| < TWO63
    ensures Unmarshal(LenientChunk(text, filler)) == Some(DagNode([text], filler, []))
    ensures IsInternalNode(LenientChunk(text, filler)) == None && !HasField(LenientChunk(text, filler), 9)
  {
    hide NextRecord, ValidUtf8, Varint, LinkRecord, DataRecord;
    var data, tail := LenientChunk(text, filler), DataRecord(filler);
    MergeLink(text, tail, DagNode([], [], []));
    assert [] + [text] == [text];
    NextDataRecord(filler);
    MergeStep(tail, DagNode([text], [], []), Record(2, Some(filler), |tail|), DagNode([text], filler, []));
    assert tail[|tail|..] == [];
    NextLinkRecord(text, tail);
    assert data[|LinkRecord(text)|..] == tail;
    assert HasField(data, 9) == HasField(tail, 9) == HasField([], 9);
  }

  /** To the walk such a chunk is an internal node over the MID its text names. */
  lemma LenientChunkIsInternal(dec: Decoders, t: Mid, filler: Bytes)
    requires Ready(dec) && dec.fs.env.Proper(t) && filler != [] && |LenientChunk(dec.fs.env.text(t), filler)| <= LARGE_LEAF
    ensures Classify(dec, CODEC_RAW, LenientChunk(dec.fs.env.text(t), filler)) == Internal([t])
    ensures IsInternalNode(LenientChunk(dec.fs.env.text(t), filler)) == None
  {
    hide NextRecord, ValidUtf8, HasField, Unmarshal, IsInternalNode, Varint;
    var env, data := dec.fs.env, LenientChunk(dec.fs.env.text(t), filler);
    LenientChunkDecodes(env.text(t), filler);
    assert data[0] == 0x0A;
    assert |data| >= 4 ==> data[..4][0] == 0x0A && MAGIC[0] == 0x4D;
    assert ParseAll(env, [env.text(t)]) == [t] + ParseAll(env, []);
  }

  lemma OneLevelRoot(env: Env, s: seq<Mid>)
    requires 2 <= |s| <= FANOUT
    ensures BatchRoot(DagTree(env), 0, s) == NodeBlock(env, s).mid && BatchBlocks(DagTree(env), 0, s) == {NodeBlock(env, s)}
  {
    hide NodeBlock;
    var t := DagTree(env);
    assert Group(s, 0) == s;
    assert AllParents(t, 0, s) == [NodeBlock(env, s).mid];
    assert LevelBlocks(t, 0, s, 1) == {NodeBlock(env, s)};
    assert BatchBlocks(t, 1, AllParents(t, 0, s)) == {};
  }

  /** A walk whose first grandchild is missing stops there: two calls, then failure. */
  lemma WalkStopsAtMissing(dec: Decoders, view: BlockMap, root: Mid, first: Mid, t: Mid, children: seq<Mid>)
    requires root.hash in view && first.hash in view && t.hash !in view && root != first
    requires Classify(dec, root.codec, view[root.hash]) == Internal(children) && children != [] && children[0] == first
    requires Classify(dec, first.codec, view[first.hash]) == Internal([t])
    ensures WalkFrom(dec, view, root).order == [Visit(root, false), Visit(first, false)] && !WalkFrom(dec, view, root).ok
  {
    hide Classify, Universe;
    UniverseClosed(dec, view, root);
    var u := Universe(dec, view, root);
    assert first in Children(dec, view, root) && t in Children(dec, view, first);
    var order := [Visit(root, false)];
    assert [] + order == order;
    assert {} + {root} == {root};
    assert Dfs(dec, view, false, u, root, {}, []) == DfsAll(dec, view, false, u, children, {root}, order);
    var order2 := order + [Visit(first, false)];
    assert Dfs(dec, view, false, u, first, {root}, order) == DfsAll(dec, view, false, u, [t], {root} + {first}, order2);
    assert Dfs(dec, view, false, u, t, {root} + {first}, order2) == Walked({root} + {first} + {t}, order2, false);
  }

  /** The condition on chunks is needed. Take any absent MID, a small chunk that decodes leniently to a link to it, and
      1 to 173 further chunks. The DAG builds and resolves. Sealed as the only root and collected with minAge 0, it keeps
      its root and the first chunk and loses every other one: the walk fails below the first chunk, and GC goes on with
      the marks made so far. */
  lemma LenientChunkLosesTheRest(dec: Decoders, view: BlockMap, meta: Records, now: int, t: Mid, filler: Bytes, rest: seq<Bytes>)
    requires Ready(dec) && dec.fs.env.Proper(t) && t.hash !in view
    requires filler != [] && |LenientChunk(dec.fs.env.text(t), filler)| <= LARGE_LEAF
    requires 1 <= |rest| < FANOUT && forall i :: 0 <= i < |rest| ==> rest[i] != []
    requires ViewHolds(view, DagBlocks(dec.fs.env, AsChunks(dec.fs.env, [LenientChunk(dec.fs.env.text(t), filler)] + rest)))
    requires
      var input := AsChunks(dec.fs.env, [LenientChunk(dec.fs.env.text(t), filler)] + rest);
      Roots(dec, meta) == {BatchRoot(DagTree(dec.fs.env), 0, Leaves(input))}
    requires meta.manifests == map[]
    requires
      var env := dec.fs.env;
      var first := LenientChunk(env.text(t), filler);
      env.digest(first) != BatchRoot(DagTree(env), 0, Leaves(AsChunks(env, [first] + rest))).hash
    ensures
      var env := dec.fs.env;
      var first := LenientChunk(env.text(t), filler);
      var input := AsChunks(env, [first] + rest);
      var root, after := BatchRoot(DagTree(env), 0, Leaves(input)), Collected(dec, view, meta, 0, now);
      && AllGood(env, input) && IsInternalNode(first) == None
      && (forall h :: h in after <==> h in view && (h == root.hash || h == env.digest(first)))
  {
    hide LenientChunk, Classify, DagTree, BatchRoot, BatchBlocks, WalkFrom, Roots, NodeData;
    var env := dec.fs.env;
    var first := LenientChunk(env.text(t), filler);
    var payloads := [first] + rest;
    var input := AsChunks(env, payloads);
    var leaves := Leaves(input);
    LenientChunkIsInternal(dec, t, filler);
    assert first != [] by { LenientChunkNotEmpty(env.text(t), filler); }
    ChunksAreGood(env, payloads);
    OneLevelRoot(env, leaves);
    forall i | 0 <= i < |leaves| ensures CompactMid(env, leaves[i]) { }
    BuiltNodeIsInternal(dec, leaves);
    var root := NodeBlock(env, leaves);
    assert root in DagBlocks(env, input);
    assert ChunkBlock(input[0]) in LeafBlocks(input);
    WalkStopsAtMissing(dec, view, root.mid, leaves[0], t, leaves);
    OnlyTwoMarks(dec, view, meta, root.mid, leaves[0]);
    forall h | h in view ensures !Spared(env, meta, h, 0, now) { NotSparedAtZero(dec, meta, h, now); }
  }

  /** Before that run the resolver reads the same DAG back completely. */
  lemma LenientChunkResolves(dec: Decoders, view: BlockMap, t: Mid, filler: Bytes, rest: seq<Bytes>, mids: set<Mid>, depth: nat)
    requires Ready(dec) && dec.fs.env.Proper(t)
    requires filler != [] && |LenientChunk(dec.fs.env.text(t), filler)| <= LARGE_LEAF
    requires forall i :: 0 <= i < |rest| ==> rest[i] != [] && IsInternalNode(rest[i]) == None
    requires
      var env := dec.fs.env;
      var input := AsChunks(env, [LenientChunk(env.text(t), filler)] + rest);
      && ViewHolds(view, DagBlocks(env, input)) && (forall b :: b in DagBlocks(env, input) ==> b.mid in mids)
      && depth > Height(|input|)
    ensures
      var env := dec.fs.env;
      var payloads := [LenientChunk(env.text(t), filler)] + rest;
      Stream(env, Seen(view, mids), BatchRoot(DagTree(env), 0, Leaves(AsChunks(env, payloads))), depth)
        == Outcome(Flatten(payloads), Done)
  {
    hide LenientChunk, Stream, DagTree, BatchBlocks, BatchRoot, IsInternalNode, LeafBlocks;
    var env := dec.fs.env;
    var payloads := [LenientChunk(env.text(t), filler)] + rest;
    LenientChunkIsInternal(dec, t, filler);
    LenientChunkNotEmpty(env.text(t), filler);
    ChunksAreGood(env, payloads);
    assert Stores(Seen(view, mids), DagBlocks(env, AsChunks(env, payloads)));
    BuildThenResolve(env, Seen(view, mids), AsChunks(env, payloads), depth);
  }

  lemma LenientChunkNotEmpty(text: Bytes, filler: Bytes)
    ensures LenientChunk(text, filler) != []
  {
  }

  lemma OnlyTwoMarks(dec: Decoders, view: BlockMap, meta: Records, root: Mid, first: Mid)
    requires Roots(dec, meta) == {root} && !root.IsZero() && meta.manifests == map[]
    requires WalkFrom(dec, view, root).order == [Visit(root, false), Visit(first, false)]
    ensures Marks(dec, view, meta) == {root.hash, first.hash}
  {
    hide Roots, WalkFrom;
    var order := WalkFrom(dec, view, root).order;
    assert order[..1] == [Visit(root, false)] && order[..1][..0] == [];
    assert CallMarks(meta, order[..1]) == {root.hash};
    assert CallMarks(meta, order) == {root.hash, first.hash};
    assert RootMarks(dec, view, meta, root) == {root.hash, first.hash};
  }

  lemma NotSparedAtZero(dec: Decoders, meta: Records, h: Bytes, now: int)
    requires Ready(dec)
    ensures !Spared(dec.fs.env, meta, h, 0, now)
  {
  }

  // -------------------------------------------- chunk, build, resolve

  function CutBlocks(data: Bytes, rabin: bool): seq<Bytes> { if rabin then Rabin.Cut(data) else FastCdc.Cut(data) }

  lemma CutIsLarge(data: Bytes, rabin: bool)
    requires data != []
    ensures
      var blocks := CutBlocks(data, rabin);
      && blocks != [] && Flatten(blocks) == data && (forall i :: 0 <= i < |blocks| ==> blocks[i] != [])
      && (forall i :: 0 <= i < |blocks| - 1 ==> |blocks[i]| > LARGE_LEAF)
  {
    hide Rabin.Cut, FastCdc.Cut;
    Rabin.CutFacts(data);
    FastCdc.CutFacts(data);
  }

  /** Either content-defined chunker, then Build, then Resolve, gives the input back, byte for byte. */
  lemma ChunkBuildResolve(env: Env, bs: map<Mid, Bytes>, data: Bytes, rabin: bool, depth: nat)
    requires env.Sound() && PlainText(env) && data != []
    requires
      var blocks := CutBlocks(data, rabin);
      && Stores(bs, DagBlocks(env, AsChunks(env, blocks)))
      && (forall i :: 0 <= i < |blocks| ==> IsInternalNode(blocks[i]) == None)
      && depth > Height(|blocks|)
    ensures
      var input := AsChunks(env, CutBlocks(data, rabin));
      input != [] && Stream(env, bs, BatchRoot(DagTree(env), 0, Leaves(input)), depth) == Outcome(data, Done)
  {
    hide CutBlocks, Stream, DagTree, BatchBlocks, BatchRoot, IsInternalNode, LeafBlocks;
    CutIsLarge(data, rabin);
    ChunksAreGood(env, CutBlocks(data, rabin));
    BuildThenResolve(env, bs, AsChunks(env, CutBlocks(data, rabin)), depth);
  }

  // ------------------------------- chunk, build, seal, collect, resolve

  /** Chunks over the leaf limit need no condition: if all but the last are, a sealed DAG never loses a block. The default
      fixed size and both content-defined chunkers are of this kind. */
  lemma LargeChunksSurvive(dec: Decoders, view: BlockMap, meta: Records, minAge: int, now: int, input: seq<Chunk>)
    requires Ready(dec) && input != [] && RawChunks(dec.fs.env, input)
    requires ViewHolds(view, DagBlocks(dec.fs.env, input))
    requires forall i :: 0 <= i < |input| - 1 ==> |Payloads(input)[i]| > LARGE_LEAF
    requires BatchRoot(DagTree(dec.fs.env), 0, Leaves(input)) in Roots(dec, meta)
    ensures ViewHolds(Collected(dec, view, meta, minAge, now), DagBlocks(dec.fs.env, input))
  {
    hide Roots, DagTree, BatchBlocks, BatchRoot, Collected, Ready, LeafBlocks;
    SealedDagSurvives(dec, view, meta, minAge, now, input);
  }

  lemma RawChunksOf(dec: Decoders, blocks: seq<Bytes>)
    requires Ready(dec) && forall i :: 0 <= i < |blocks| ==> blocks[i] != []
    ensures RawChunks(dec.fs.env, AsChunks(dec.fs.env, blocks)) && Payloads(AsChunks(dec.fs.env, blocks)) == blocks
  {
    ChunksAreGood(dec.fs.env, blocks);
  }

  /** A sealed DAG from either content-defined chunker never loses a block to GC. */
  lemma ContentDefinedSurvives(dec: Decoders, view: BlockMap, meta: Records, minAge: int, now: int, data: Bytes, rabin: bool)
    requires Ready(dec) && data != []
    requires
      var input := AsChunks(dec.fs.env, CutBlocks(data, rabin));
      && ViewHolds(view, DagBlocks(dec.fs.env, input))
      && (input != [] ==> BatchRoot(DagTree(dec.fs.env), 0, Leaves(input)) in Roots(dec, meta))
    ensures
      ViewHolds(Collected(dec, view, meta, minAge, now), DagBlocks(dec.fs.env, AsChunks(dec.fs.env, CutBlocks(data, rabin))))
  {
    hide CutBlocks, Roots, DagBlocks, BatchRoot, Collected, Ready;
    CutIsLarge(data, rabin);
    RawChunksOf(dec, CutBlocks(data, rabin));
    LargeChunksSurvive(dec, view, meta, minAge, now, AsChunks(dec.fs.env, CutBlocks(data, rabin)));
  }

  /** Chunk, build, seal, collect, resolve: the input comes back, byte for byte, after any run of the collector. */
  lemma ChunkSealCollectResolve(dec: Decoders, view: BlockMap, meta: Records, minAge: int, now: int, data: Bytes, rabin: bool,
                                mids: set<Mid>, depth: nat)
    requires Ready(dec) && data != []
    requires
      var blocks := CutBlocks(data, rabin);
      var input := AsChunks(dec.fs.env, blocks);
      && ViewHolds(view, DagBlocks(dec.fs.env, input))
      && (input != [] ==> BatchRoot(DagTree(dec.fs.env), 0, Leaves(input)) in Roots(dec, meta))
      && (forall i :: 0 <= i < |blocks| ==> IsInternalNode(blocks[i]) == None)
      && (forall b :: b in DagBlocks(dec.fs.env, input) ==> b.mid in mids) && depth > Height(|blocks|)
    ensures
      var input := AsChunks(dec.fs.env, CutBlocks(data, rabin));
      var after := Collected(dec, view, meta, minAge, now);
      && input != []
      && Stream(dec.fs.env, Seen(after, mids), BatchRoot(DagTree(dec.fs.env), 0, Leaves(input)), depth) == Outcome(data, Done)
  {
    hide CutBlocks, Roots, DagBlocks, BatchRoot, Collected, Ready, Stream, IsInternalNode;
    CutIsLarge(data, rabin);
    RawChunksOf(dec, CutBlocks(data, rabin));
    LargeEarlierSettled(dec, view, CutBlocks(data, rabin));
    SealedDagStillResolves(dec, view, meta, minAge, now, AsChunks(dec.fs.env, CutBlocks(data, rabin)), mids, depth);
  }

  lemma LargeEarlierSettled(dec: Decoders, view: BlockMap, payloads: seq<Bytes>)
    requires forall i :: 0 <= i < |payloads| - 1 ==> |payloads[i]| > LARGE_LEAF
    ensures EarlierSettled(dec, view, payloads)
  {
  }
}
