/** core/memfs against core/store: which blocks of a sealed FILE the walk reaches, and what garbage collection leaves of it. */
module SealedFile {
  import opened Common
  import opened Carry
  import opened DagBuild
  import opened DagResolve
  import opened MemfsBuild
  import opened MemfsFlatten
  import opened MemfsReader
  import opened StoreWalk
  import opened Gc
  import opened SealedDag
  import opened Tower

  /** MemFSNode and DescriptorPayload share no field of the same wire type from which a root or block list could be read. */
  ghost predicate FileReady(dec: Decoders) {
    && dec.fs.Sound()
    && forall n {:trigger dec.fs.encode(n)} :: Undescribed(dec, dec.fs.encode(n))
  }

  /** References of a level carry the codec the walk will assume for them. */
  ghost predicate Typed(env: Env, level: nat, s: seq<Ref>) {
    forall i :: 0 <= i < |s| ==>
      env.Proper(s[i].mid) && if level == 0 then s[i].mid.codec == CODEC_RAW && s[i].size > 0 else s[i].mid.codec == CODEC_MEMFS
  }

  lemma {:induction false} StoredChildren(env: Env, level: nat, g: seq<Ref>)
    requires env.Sound() && Typed(env, level, g)
    ensures BlockChildren(env, StoredAll(level, g)) == MidsOf(g)
  {
    hide Env.Sound;
    if g != [] {
      env.ProperNotEmpty(g[0].mid);
      assert StoredAll(level, g)[1..] == StoredAll(level, g[1..]);
      assert g[0].mid == Mid(g[0].mid.codec, g[0].mid.hash);
      StoredChildren(env, level, g[1..]);
      assert MidsOf(g) == [g[0].mid] + MidsOf(g[1..]);
    }
  }

  /** A stored FILE node's children, as the walk sees them: none exactly when it has inline data or no blocks. */
  lemma FileChildren(dec: Decoders, view: BlockMap, n: Node, level: nat, g: seq<Ref>)
    requires FileReady(dec) && Typed(dec.fs.env, level, g)
    requires n.kind == File && n.blocks == StoredAll(level, g) && Representable(n) && (n.data != [] ==> |g| <= 1)
    requires ViewHolds(view, {dec.fs.NodeBlock(n)})
    ensures Children(dec, view, dec.fs.NodeBlock(n).mid) == if n.data != [] then [] else MidsOf(g)
  {
    hide TryDescriptor, Undescribed, BlockChildren;
    var b := dec.fs.NodeBlock(n);
    UndescribedIff(dec, b.data);
    assert b in {b} && dec.fs.decode(b.data) == Some(n);
    StoredChildren(dec.fs.env, level, g);
    assert Classify(dec, CODEC_MEMFS, b.data) == ClassifyMemfs(dec, b.data);
  }

  lemma GroupChildren(dec: Decoders, view: BlockMap, level: nat, g: seq<Ref>)
    requires FileReady(dec) && Typed(dec.fs.env, level, g) && Fits(g)
    requires ViewHolds(view, {FsTree(dec.fs).block(level, g)})
    ensures
      var p := FsTree(dec.fs).parent(level, g);
      && Children(dec, view, p.mid) == MidsOf(g)
      && p.mid == FsTree(dec.fs).block(level, g).mid && p.mid.codec == CODEC_MEMFS && dec.fs.env.Proper(p.mid)
  {
    hide Children;
    FsTreeNode(dec.fs, level, g);
    GroupRepresentable(level, g);
    FileChildren(dec, view, GroupNode(level, g), level, g);
  }

  /** The parent of one group, seen by the walk. */
  lemma FileParentChildren(dec: Decoders, view: BlockMap, level: nat, s: seq<Ref>, k: nat)
    requires FileReady(dec) && Typed(dec.fs.env, level, s) && Fits(s) && k < Groups(|s|)
    requires ViewHolds(view, LevelBlocks(FsTree(dec.fs), level, s, Groups(|s|)))
    ensures
      var p := FsTree(dec.fs).parent(level, Group(s, k));
      && Children(dec, view, p.mid) == MidsOf(Group(s, k)) && p.mid.codec == CODEC_MEMFS && dec.fs.env.Proper(p.mid)
      && FsTree(dec.fs).block(level, Group(s, k)).mid == p.mid
  {
    hide Children, FsTree, FileReady, MidsOf, SumRefs;
    var t, g := FsTree(dec.fs), Group(s, k);
    assert t.block(level, g) in LevelBlocks(t, level, s, Groups(|s|));
    assert forall i :: 0 <= i < |g| ==> g[i] == s[k * FANOUT + i];
    GroupFits(s, k);
    GroupChildren(dec, view, level, g);
  }

  lemma FileLevelChildren(dec: Decoders, view: BlockMap, level: nat, s: seq<Ref>)
    requires FileReady(dec) && Typed(dec.fs.env, level, s) && Fits(s)
    requires ViewHolds(view, LevelBlocks(FsTree(dec.fs), level, s, Groups(|s|)))
    ensures
      var ps := AllParents(FsTree(dec.fs), level, s);
      && Typed(dec.fs.env, level + 1, ps) && Fits(ps)
      && (forall k :: 0 <= k < |ps| ==> Children(dec, view, ps[k].mid) == MidsOf(Group(s, k)))
      && (forall b :: b in LevelBlocks(FsTree(dec.fs), level, s, Groups(|s|)) ==> b.mid in MidsOf(ps))
  {
    hide Children, FsTree, FileReady, Group, SumRefs;
    var t := FsTree(dec.fs);
    var ps := AllParents(t, level, s);
    ParentsSum(dec.fs, level, s);
    forall k | 0 <= k < Groups(|s|)
      ensures Children(dec, view, ps[k].mid) == MidsOf(Group(s, k))
      ensures ps[k].mid.codec == CODEC_MEMFS && dec.fs.env.Proper(ps[k].mid)
      ensures t.block(level, Group(s, k)).mid == ps[k].mid
    {
      FileParentChildren(dec, view, level, s, k);
    }
    forall b | b in LevelBlocks(t, level, s, Groups(|s|)) ensures b.mid in MidsOf(ps) {
      var k :| 0 <= k < Groups(|s|) && b == t.block(level, Group(s, k));
      assert MidsOf(ps)[k] == ps[k].mid == b.mid;
    }
  }

  ghost predicate ReachedFromSome(dec: Decoders, view: BlockMap, tops: seq<Ref>, x: Mid) {
    exists j :: 0 <= j < |tops| && Reach(dec, view, tops[j].mid, x)
  }

  /** From the entries under the root the walk reaches every reference below and every intermediate node written. */
  lemma {:induction false} TopReaches(dec: Decoders, view: BlockMap, level: nat, s: seq<Ref>)
    requires FileReady(dec) && Typed(dec.fs.env, level, s) && Fits(s)
    requires ViewHolds(view, TopBlocks(dec.fs, level, s))
    ensures
      var top := TopOf(dec.fs, level, s);
      && Typed(dec.fs.env, top.level, top.refs) && Fits(top.refs)
      && (forall i :: 0 <= i < |s| ==> ReachedFromSome(dec, view, top.refs, s[i].mid))
      && (forall b :: b in TopBlocks(dec.fs, level, s) ==> ReachedFromSome(dec, view, top.refs, b.mid))
    decreases |s|
  {
    hide Reach, Children, FsTree, LevelBlocks, FileReady;
    var t, top := FsTree(dec.fs), TopOf(dec.fs, level, s);
    if |s| < FANOUT {
      forall i | 0 <= i < |s| ensures ReachedFromSome(dec, view, top.refs, s[i].mid) {
        ReachSelf(dec, view, s[i].mid);
      }
    } else {
      var ps, here := AllParents(t, level, s), LevelBlocks(t, level, s, Groups(|s|));
      assert ViewHolds(view, here);
      FileLevelChildren(dec, view, level, s);
      TopReaches(dec, view, level + 1, ps);
      forall i | 0 <= i < |s| ensures ReachedFromSome(dec, view, top.refs, s[i].mid) {
        ChildOfParent(dec, view, top.refs, s, ps, i);
      }
      forall b | b in here ensures ReachedFromSome(dec, view, top.refs, b.mid) {
        var k :| 0 <= k < |ps| && MidsOf(ps)[k] == b.mid;
        assert ps[k].mid == b.mid;
      }
    }
  }

  lemma ChildOfParent(dec: Decoders, view: BlockMap, tops: seq<Ref>, s: seq<Ref>, ps: seq<Ref>, i: nat)
    requires i < |s| && |ps| == Groups(|s|)
    requires forall k :: 0 <= k < |ps| ==> Children(dec, view, ps[k].mid) == MidsOf(Group(s, k))
    requires forall k :: 0 <= k < |ps| ==> ReachedFromSome(dec, view, tops, ps[k].mid)
    ensures ReachedFromSome(dec, view, tops, s[i].mid)
  {
    hide Reach, Children;
    var k := i / FANOUT;
    assert MidsOf(Group(s, k))[i - k * FANOUT] == s[i].mid;
    assert ReachedFromSome(dec, view, tops, ps[k].mid);
    var j :| 0 <= j < |tops| && Reach(dec, view, tops[j].mid, ps[k].mid);
    ReachStep(dec, view, tops[j].mid, ps[k].mid, s[i].mid);
  }

  // ------------------------------------------------------- the FILE root

  /** A file of one block that fits the block size carries that block inline as well. */
  predicate Inline(maxBlk: nat, chunks: seq<Bytes>) { |chunks| == 1 && |chunks[0]| <= maxBlk }

  /** What a chunker delivers, of a total size that fits FileSize. */
  ghost predicate Storable(chunks: seq<Bytes>) {
    |Flatten(chunks)| < TWO64 && forall i :: 0 <= i < |chunks| ==> chunks[i] != []
  }

  function FileMid(fs: Fs, meta: Meta, maxBlk: nat, chunks: seq<Bytes>): Mid {
    fs.NodeBlock(FileRoot(fs, meta, maxBlk, chunks)).mid
  }

  /** Everything AddFile writes. */
  ghost function FileBlocks(fs: Fs, meta: Meta, maxBlk: nat, chunks: seq<Bytes>): set<Block> {
    RawBlocks(fs.env, chunks) + TopBlocks(fs, 0, LeafRefs(fs.env, chunks)) + {fs.NodeBlock(FileRoot(fs, meta, maxBlk, chunks))}
  }

  lemma RootRepresentable(fs: Fs, meta: Meta, maxBlk: nat, chunks: seq<Bytes>, top: Top)
    requires Fits(LeafRefs(fs.env, chunks)) && top == TopOf(fs, 0, LeafRefs(fs.env, chunks)) && Fits(top.refs)
    ensures Representable(FileRoot(fs, meta, maxBlk, chunks))
  {
    hide TopOf;
    forall i | 0 <= i < |top.refs| ensures StoredAll(top.level, top.refs)[i].size < TWO64 {
      SizeWithinSum(top.refs, i);
    }
  }

  lemma LeavesTyped(dec: Decoders, chunks: seq<Bytes>)
    requires FileReady(dec) && Storable(chunks)
    ensures Typed(dec.fs.env, 0, LeafRefs(dec.fs.env, chunks)) && Fits(LeafRefs(dec.fs.env, chunks))
  {
    TotalSize(dec.fs.env, chunks);
  }

  lemma RootChildren(dec: Decoders, view: BlockMap, meta: Meta, maxBlk: nat, chunks: seq<Bytes>)
    requires FileReady(dec) && Storable(chunks)
    requires ViewHolds(view, FileBlocks(dec.fs, meta, maxBlk, chunks))
    ensures
      var top := TopOf(dec.fs, 0, LeafRefs(dec.fs.env, chunks));
      Children(dec, view, FileMid(dec.fs, meta, maxBlk, chunks)) == if Inline(maxBlk, chunks) then [] else MidsOf(top.refs)
  {
    hide Children, FsTree, TopBlocks, Reach, FileReady;
    var leaves := LeafRefs(dec.fs.env, chunks);
    var root := FileRoot(dec.fs, meta, maxBlk, chunks);
    LeavesTyped(dec, chunks);
    TopReaches(dec, view, 0, leaves);
    var top := TopOf(dec.fs, 0, leaves);
    assert |chunks| == 1 ==> top.refs == leaves;
    RootRepresentable(dec.fs, meta, maxBlk, chunks, top);
    FileChildren(dec, view, root, top.level, top.refs);
  }

  /** Unless the file is inline, the walk from its root reaches every block AddFile wrote. */
  lemma FileReaches(dec: Decoders, view: BlockMap, meta: Meta, maxBlk: nat, chunks: seq<Bytes>, b: Block)
    requires FileReady(dec) && Storable(chunks) && !Inline(maxBlk, chunks)
    requires ViewHolds(view, FileBlocks(dec.fs, meta, maxBlk, chunks)) && b in FileBlocks(dec.fs, meta, maxBlk, chunks)
    ensures Reach(dec, view, FileMid(dec.fs, meta, maxBlk, chunks), b.mid)
  {
    hide Reach, Children, TopBlocks, TopOf, FileRoot, FileReady;
    var leaves, root := LeafRefs(dec.fs.env, chunks), FileMid(dec.fs, meta, maxBlk, chunks);
    var top := TopOf(dec.fs, 0, leaves);
    RootChildren(dec, view, meta, maxBlk, chunks);
    LeavesTyped(dec, chunks);
    TopReaches(dec, view, 0, leaves);
    if b.mid == root {
      ReachSelf(dec, view, root);
    } else {
      if b in RawBlocks(dec.fs.env, chunks) {
        var i :| 0 <= i < |chunks| && b == Block(dec.fs.env.FromBytes(chunks[i]), chunks[i]);
        assert leaves[i].mid == b.mid;
      }
      var j :| 0 <= j < |top.refs| && Reach(dec, view, top.refs[j].mid, b.mid);
      assert MidsOf(top.refs)[j] == top.refs[j].mid;
      ReachHead(dec, view, root, top.refs[j].mid, b.mid);
    }
  }

  /** The walk from a FILE root reaches a raw block of the file exactly when the file is not inline. */
  lemma RawBlockReachedIff(dec: Decoders, view: BlockMap, meta: Meta, maxBlk: nat, chunks: seq<Bytes>, i: nat)
    requires FileReady(dec) && Storable(chunks) && i < |chunks|
    requires ViewHolds(view, FileBlocks(dec.fs, meta, maxBlk, chunks))
    ensures Reach(dec, view, FileMid(dec.fs, meta, maxBlk, chunks), dec.fs.env.FromBytes(chunks[i])) <==> !Inline(maxBlk, chunks)
  {
    hide Children, TopBlocks, FileRoot, Reach;
    var b := Block(dec.fs.env.FromBytes(chunks[i]), chunks[i]);
    assert b in RawBlocks(dec.fs.env, chunks);
    if Inline(maxBlk, chunks) {
      RootChildren(dec, view, meta, maxBlk, chunks);
      ChildlessReach(dec, view, FileMid(dec.fs, meta, maxBlk, chunks), b.mid);
    } else {
      FileReaches(dec, view, meta, maxBlk, chunks, b);
    }
  }

  lemma ChildlessReach(dec: Decoders, view: BlockMap, a: Mid, b: Mid)
    requires Children(dec, view, a) == []
    ensures Reach(dec, view, a, b) <==> a == b
  {
    hide Children;
    ReachSelf(dec, view, a);
    if Reach(dec, view, a, b) {
      ClosedContainsReach(dec, view, {a}, a, b);
    }
  }

  // ---------------------------------------------- the file as a tower

  ghost function FileLevels(fs: Fs, level: nat, s: seq<Ref>, root: Mid): (t: seq<seq<Mid>>)
    ensures t != [] && t[0] == MidsOf(s)
    decreases |s|
  {
    if |s| < FANOUT then [MidsOf(s), [root]] else [MidsOf(s)] + FileLevels(fs, level + 1, AllParents(FsTree(fs), level, s), root)
  }

  lemma {:induction false} FileIsTower(dec: Decoders, view: BlockMap, level: nat, s: seq<Ref>, root: Mid)
    requires FileReady(dec) && Typed(dec.fs.env, level, s) && Fits(s) && s != []
    requires ViewHolds(view, TopBlocks(dec.fs, level, s))
    requires root.hash in view && Children(dec, view, root) == MidsOf(TopOf(dec.fs, level, s).refs)
    ensures IsTower(dec, view, FileLevels(dec.fs, level, s, root)) && Tower.Root(FileLevels(dec.fs, level, s, root)) == root
    decreases |s|
  {
    hide Children, FsTree, LevelBlocks, FileReady, SumRefs;
    if |s| < FANOUT {
      RootFloor(dec, view, MidsOf(s), root);
      var t := [MidsOf(s), [root]];
      assert t[1..] == [[root]];
      assert IsTower(dec, view, [[root]]);
    } else {
      var t := FsTree(dec.fs);
      var ps, here := AllParents(t, level, s), LevelBlocks(t, level, s, Groups(|s|));
      assert ViewHolds(view, here);
      FileLevelChildren(dec, view, level, s);
      FileFloor(dec, view, level, s);
      FileIsTower(dec, view, level + 1, ps, root);
      var up := FileLevels(dec.fs, level + 1, ps, root);
      var all := [MidsOf(s)] + up;
      assert all[1..] == up && all[1] == MidsOf(ps);
    }
  }

  lemma RootFloor(dec: Decoders, view: BlockMap, g: seq<Mid>, root: Mid)
    requires root.hash in view && Children(dec, view, root) == g && 0 < |g| < FANOUT
    ensures Floor(dec, view, g, [root])
  {
    hide Children;
    assert Group(g, 0) == g;
  }

  lemma FileFloor(dec: Decoders, view: BlockMap, level: nat, s: seq<Ref>)
    requires FileReady(dec) && Typed(dec.fs.env, level, s) && Fits(s)
    requires ViewHolds(view, LevelBlocks(FsTree(dec.fs), level, s, Groups(|s|)))
    ensures Floor(dec, view, MidsOf(s), MidsOf(AllParents(FsTree(dec.fs), level, s)))
  {
    hide Children, FsTree, FileReady, SumRefs;
    FileLevelChildren(dec, view, level, s);
    var ps := AllParents(FsTree(dec.fs), level, s);
    forall k | 0 <= k < |ps| ensures MidsOf(ps)[k].hash in view && Children(dec, view, MidsOf(ps)[k]) == Group(MidsOf(s), k) {
      FileParentInView(dec, view, level, s, k);
      MidsOfGroup(s, k);
    }
  }

  /** The levels between the chunks and the root list exactly the intermediate nodes. */
  lemma {:induction false} FileLevelsAre(dec: Decoders, view: BlockMap, level: nat, s: seq<Ref>, root: Mid)
    requires FileReady(dec) && Typed(dec.fs.env, level, s) && Fits(s)
    requires ViewHolds(view, TopBlocks(dec.fs, level, s))
    ensures
      var t := FileLevels(dec.fs, level, s, root);
      && InTower(t, root)
      && (forall b :: b in TopBlocks(dec.fs, level, s) ==> InTower(t, b.mid))
      && (forall j, k :: 0 < j < |t| && 0 <= k < |t[j]| ==> t[j][k] == root || InBlocks(TopBlocks(dec.fs, level, s), t[j][k]))
    decreases |s|
  {
    hide Children, FsTree, LevelBlocks, FileReady, SumRefs;
    if |s| < FANOUT {
      var t: seq<seq<Mid>> := [MidsOf(s), [root]];
      assert root in t[1];
    } else {
      var ft := FsTree(dec.fs);
      var ps, here := AllParents(ft, level, s), LevelBlocks(ft, level, s, Groups(|s|));
      var above := TopBlocks(dec.fs, level + 1, ps);
      assert ViewHolds(view, here);
      FileLevelChildren(dec, view, level, s);
      FileLevelsAre(dec, view, level + 1, ps, root);
      ParentsInBlocks(dec.fs, level, s);
      var up := FileLevels(dec.fs, level + 1, ps, root);
      var t: seq<seq<Mid>> := [MidsOf(s)] + up;
      forall x | InTower(up, x) ensures InTower(t, x) {
        var j :| 0 <= j < |up| && x in up[j];
        assert t[j + 1] == up[j];
      }
      forall b: Block | b in here + above ensures InTower(t, b.mid) {
        if b in here {
          assert b.mid in up[0];
          assert InTower(up, b.mid);
        }
      }
      forall j, k | 0 < j < |t| && 0 <= k < |t[j]| ensures t[j][k] == root || InBlocks(here + above, t[j][k]) {
        assert t[j] == up[j - 1];
        if j == 1 {
          assert InBlocks(here, MidsOf(ps)[k]);
        } else if up[j - 1][k] != root {
          assert InBlocks(above, up[j - 1][k]);
        }
      }
    }
  }

  lemma ParentsInBlocks(fs: Fs, level: nat, s: seq<Ref>)
    ensures
      var ps := MidsOf(AllParents(FsTree(fs), level, s));
      forall k :: 0 <= k < |ps| ==> InBlocks(LevelBlocks(FsTree(fs), level, s, Groups(|s|)), ps[k])
  {
    hide GroupNode;
    var t := FsTree(fs);
    var ps := MidsOf(AllParents(t, level, s));
    forall k | 0 <= k < |ps| ensures InBlocks(LevelBlocks(t, level, s, Groups(|s|)), ps[k]) {
      FsTreeNode(fs, level, Group(s, k));
      var b := t.block(level, Group(s, k));
      assert b in LevelBlocks(t, level, s, Groups(|s|)) && b.mid == ps[k];
    }
  }

  ghost function FileTower(fs: Fs, meta: Meta, maxBlk: nat, chunks: seq<Bytes>): (t: seq<seq<Mid>>)
    ensures t != [] && t[0] == MidsOf(LeafRefs(fs.env, chunks))
  {
    FileLevels(fs, 0, LeafRefs(fs.env, chunks), FileMid(fs, meta, maxBlk, chunks))
  }

  lemma FileTowerStands(dec: Decoders, view: BlockMap, meta: Meta, maxBlk: nat, chunks: seq<Bytes>)
    requires FileReady(dec) && Storable(chunks) && chunks != [] && !Inline(maxBlk, chunks)
    requires ViewHolds(view, FileBlocks(dec.fs, meta, maxBlk, chunks))
    ensures
      var t := FileTower(dec.fs, meta, maxBlk, chunks);
      && IsTower(dec, view, t) && Tower.Root(t) == FileMid(dec.fs, meta, maxBlk, chunks)
      && (forall b :: b in FileBlocks(dec.fs, meta, maxBlk, chunks) ==> InTower(t, b.mid))
  {
    hide Children, TopBlocks, TopOf, FileReady, FileRoot, Storable, SumRefs, IsTower;
    var leaves, root := LeafRefs(dec.fs.env, chunks), FileMid(dec.fs, meta, maxBlk, chunks);
    RootChildren(dec, view, meta, maxBlk, chunks);
    LeavesTyped(dec, chunks);
    var node := dec.fs.NodeBlock(FileRoot(dec.fs, meta, maxBlk, chunks));
    assert node in FileBlocks(dec.fs, meta, maxBlk, chunks) && node.mid == root;
    FileIsTower(dec, view, 0, leaves, root);
    FileLevelsAre(dec, view, 0, leaves, root);
    var t := FileTower(dec.fs, meta, maxBlk, chunks);
    forall b | b in RawBlocks(dec.fs.env, chunks) ensures InTower(t, b.mid) {
      var i :| 0 <= i < |chunks| && b == Block(dec.fs.env.FromBytes(chunks[i]), chunks[i]);
      assert MidsOf(leaves)[i] == b.mid;
    }
  }

  /** For the walk a FILE is complete exactly when it is inline or every chunk is settled. */
  lemma FileCompleteIff(dec: Decoders, view: BlockMap, meta: Meta, maxBlk: nat, chunks: seq<Bytes>)
    requires FileReady(dec) && Storable(chunks)
    requires ViewHolds(view, FileBlocks(dec.fs, meta, maxBlk, chunks))
    ensures Complete(dec, view, FileMid(dec.fs, meta, maxBlk, chunks))
       <==> Inline(maxBlk, chunks) || AllSettled(dec, view, chunks)
  {
    hide Complete, Settled, FileReady, FileRoot, EachComplete, IsTower, Children, TopOf, TopBlocks;
    if Inline(maxBlk, chunks) || chunks == [] {
      ChildlessComplete(dec, view, meta, maxBlk, chunks);
    } else {
      FileTowerStands(dec, view, meta, maxBlk, chunks);
      TowerComplete(dec, view, FileTower(dec.fs, meta, maxBlk, chunks));
      LeafRefsSettled(dec, view, chunks);
    }
  }

  lemma ChildlessComplete(dec: Decoders, view: BlockMap, meta: Meta, maxBlk: nat, chunks: seq<Bytes>)
    requires FileReady(dec) && Storable(chunks) && (Inline(maxBlk, chunks) || chunks == [])
    requires ViewHolds(view, FileBlocks(dec.fs, meta, maxBlk, chunks))
    ensures Complete(dec, view, FileMid(dec.fs, meta, maxBlk, chunks))
  {
    hide Children, FileReady, FileRoot, TopBlocks;
    RootChildren(dec, view, meta, maxBlk, chunks);
    assert dec.fs.NodeBlock(FileRoot(dec.fs, meta, maxBlk, chunks)) in FileBlocks(dec.fs, meta, maxBlk, chunks);
    ParentComplete(dec, view, FileMid(dec.fs, meta, maxBlk, chunks), []);
  }

  lemma LeafRefsSettled(dec: Decoders, view: BlockMap, chunks: seq<Bytes>)
    requires ViewHolds(view, RawBlocks(dec.fs.env, chunks))
    ensures
      var mids := MidsOf(LeafRefs(dec.fs.env, chunks));
      && (EachComplete(dec, view, mids) <==> AllSettled(dec, view, chunks))
      && (EachComplete(dec, view, Earlier(mids)) <==> EarlierSettled(dec, view, chunks))
  {
    hide Complete, Settled;
    var mids := MidsOf(LeafRefs(dec.fs.env, chunks));
    forall i | 0 <= i < |chunks| ensures Complete(dec, view, mids[i]) <==> Settled(dec, view, chunks[i]) {
      assert Block(dec.fs.env.FromBytes(chunks[i]), chunks[i]) in RawBlocks(dec.fs.env, chunks);
      RawChunkComplete(dec, view, mids[i], chunks[i]);
    }
    if EachComplete(dec, view, mids) {
      forall i | 0 <= i < |chunks| ensures Settled(dec, view, chunks[i]) {
        assert Complete(dec, view, mids[i]);
      }
    }
    if EachComplete(dec, view, Earlier(mids)) {
      forall i | 0 <= i < |chunks| - 1 ensures Settled(dec, view, chunks[i]) {
        assert Complete(dec, view, Earlier(mids)[i]);
      }
    }
  }

  lemma FileParentInView(dec: Decoders, view: BlockMap, level: nat, s: seq<Ref>, k: nat)
    requires k < Groups(|s|)
    requires ViewHolds(view, LevelBlocks(FsTree(dec.fs), level, s, Groups(|s|)))
    ensures AllParents(FsTree(dec.fs), level, s)[k].mid.hash in view
  {
    FsTreeNode(dec.fs, level, Group(s, k));
    assert FsTree(dec.fs).block(level, Group(s, k)) in LevelBlocks(FsTree(dec.fs), level, s, Groups(|s|));
  }

  lemma MidsOfGroup(s: seq<Ref>, k: nat)
    requires k < Groups(|s|)
    ensures MidsOf(Group(s, k)) == Group(MidsOf(s), k)
  {
  }

  // --------------------------------------------------- GC, then reading

  lemma FileMidProper(dec: Decoders, meta: Meta, maxBlk: nat, chunks: seq<Bytes>)
    requires FileReady(dec)
    ensures !FileMid(dec.fs, meta, maxBlk, chunks).IsZero()
  {
    hide FileRoot;
    dec.fs.env.DigestProper(dec.fs.NodeBlock(FileRoot(dec.fs, meta, maxBlk, chunks)).data);
  }

  /** A sealed file that is not inline keeps every block through any GC run if all chunks but the last are settled. */
  lemma SealedFileSurvives(dec: Decoders, view: BlockMap, records: Records, minAge: int, now: int,
                           meta: Meta, maxBlk: nat, chunks: seq<Bytes>)
    requires FileReady(dec) && Storable(chunks) && !Inline(maxBlk, chunks)
    requires ViewHolds(view, FileBlocks(dec.fs, meta, maxBlk, chunks)) && EarlierSettled(dec, view, chunks)
    requires FileMid(dec.fs, meta, maxBlk, chunks) in Roots(dec, records)
    ensures ViewHolds(Collected(dec, view, records, minAge, now), FileBlocks(dec.fs, meta, maxBlk, chunks))
  {
    hide Roots, Collected, FileMid, EarlierSettled, EachComplete, IsTower, FileRoot, FileReady, WalkFrom, InTower, TopBlocks, FileTower, FileLevels;
    var root := FileMid(dec.fs, meta, maxBlk, chunks);
    FileMidProper(dec, meta, maxBlk, chunks);
    if chunks == [] {
      RootVisited(dec, view, root);
      EmptyFileBlocks(dec.fs, meta, maxBlk);
    } else {
      FileTowerStands(dec, view, meta, maxBlk, chunks);
      LeafRefsSettled(dec, view, chunks);
      WalkVisitsTower(dec, view, FileTower(dec.fs, meta, maxBlk, chunks));
    }
    forall b | b in FileBlocks(dec.fs, meta, maxBlk, chunks)
      ensures b.mid.hash in Collected(dec, view, records, minAge, now)
      ensures Collected(dec, view, records, minAge, now)[b.mid.hash] == b.data
    {
      VisitedSurvives(dec, view, records, minAge, now, root, b.mid);
    }
  }

  /** Chunks over the leaf limit need no condition here either. */
  lemma LargeFileSurvives(dec: Decoders, view: BlockMap, records: Records, minAge: int, now: int,
                          meta: Meta, maxBlk: nat, chunks: seq<Bytes>)
    requires FileReady(dec) && Storable(chunks) && !Inline(maxBlk, chunks)
    requires ViewHolds(view, FileBlocks(dec.fs, meta, maxBlk, chunks))
    requires forall i :: 0 <= i < |chunks| - 1 ==> |chunks[i]| > LARGE_LEAF
    requires FileMid(dec.fs, meta, maxBlk, chunks) in Roots(dec, records)
    ensures ViewHolds(Collected(dec, view, records, minAge, now), FileBlocks(dec.fs, meta, maxBlk, chunks))
  {
    hide Roots, Collected, FileBlocks, FileMid, FileReady;
    LargeEarlierSettled(dec, view, chunks);
    SealedFileSurvives(dec, view, records, minAge, now, meta, maxBlk, chunks);
  }

  lemma EmptyFileBlocks(fs: Fs, meta: Meta, maxBlk: nat)
    ensures FileBlocks(fs, meta, maxBlk, []) == {fs.NodeBlock(FileRoot(fs, meta, maxBlk, []))}
    ensures fs.NodeBlock(FileRoot(fs, meta, maxBlk, [])).mid == FileMid(fs, meta, maxBlk, [])
  {
    NoTopBlocks(fs, LeafRefs(fs.env, []));
  }

  /** No earlier chunk leads to the key of the last one, and neither the root nor an intermediate node has it. */
  ghost predicate LastChunkApart(dec: Decoders, view: BlockMap, meta: Meta, maxBlk: nat, chunks: seq<Bytes>)
    requires chunks != []
  {
    var mids := MidsOf(LeafRefs(dec.fs.env, chunks));
    var last := mids[|mids| - 1];
    && (forall i :: 0 <= i < |mids| - 1 ==> Apart(dec, view, mids[i], last))
    && (forall b :: b in TopBlocks(dec.fs, 0, LeafRefs(dec.fs.env, chunks)) ==> b.mid.hash != last.hash)
    && FileMid(dec.fs, meta, maxBlk, chunks).hash != last.hash
  }

  lemma FileIsClear(dec: Decoders, view: BlockMap, meta: Meta, maxBlk: nat, chunks: seq<Bytes>)
    requires FileReady(dec) && Storable(chunks) && chunks != [] && LastChunkApart(dec, view, meta, maxBlk, chunks)
    requires ViewHolds(view, FileBlocks(dec.fs, meta, maxBlk, chunks))
    ensures
      var t := FileTower(dec.fs, meta, maxBlk, chunks);
      Clear(dec, view, t, t[0][|t[0]| - 1])
  {
    hide Apart, TopBlocks, FileReady, FileRoot, SumRefs, FileLevels;
    var leaves, root := LeafRefs(dec.fs.env, chunks), FileMid(dec.fs, meta, maxBlk, chunks);
    LeavesTyped(dec, chunks);
    FileLevelsAre(dec, view, 0, leaves, root);
    var t: seq<seq<Mid>> := FileTower(dec.fs, meta, maxBlk, chunks);
    var last: Mid := t[0][|t[0]| - 1];
    forall j, k | 0 < j < |t| && 0 <= k < |t[j]| ensures t[j][k].hash != last.hash {
      assert t[j][k] == root || InBlocks(TopBlocks(dec.fs, 0, leaves), t[j][k]);
    }
  }

  /** And exactly then: a file that is the only sealed root survives a run with minAge 0 exactly when it is not inline and
      all chunks but the last are settled. Otherwise its last chunk is lost. */
  lemma SealedFileSurvivesIff(dec: Decoders, view: BlockMap, records: Records, now: int, meta: Meta, maxBlk: nat, chunks: seq<Bytes>)
    requires FileReady(dec) && Storable(chunks) && chunks != [] && LastChunkApart(dec, view, meta, maxBlk, chunks)
    requires ViewHolds(view, FileBlocks(dec.fs, meta, maxBlk, chunks))
    requires Roots(dec, records) == {FileMid(dec.fs, meta, maxBlk, chunks)} && records.manifests == map[]
    ensures ViewHolds(Collected(dec, view, records, 0, now), FileBlocks(dec.fs, meta, maxBlk, chunks))
       <==> !Inline(maxBlk, chunks) && EarlierSettled(dec, view, chunks)
    ensures !(!Inline(maxBlk, chunks) && EarlierSettled(dec, view, chunks)) ==>
      dec.fs.env.digest(chunks[|chunks| - 1]) !in Collected(dec, view, records, 0, now)
  {
    hide Roots, Collected, EarlierSettled, FileReady, FileBlocks, FileMid, WalkFrom, LastChunkApart, Storable, Inline;
    LastInFileBlocks(dec.fs, meta, maxBlk, chunks);
    if !Inline(maxBlk, chunks) && EarlierSettled(dec, view, chunks) {
      SealedFileSurvives(dec, view, records, 0, now, meta, maxBlk, chunks);
    } else {
      LastChunkNotVisited(dec, view, meta, maxBlk, chunks);
      LastFileChunkLost(dec, view, records, now, meta, maxBlk, chunks);
    }
  }

  lemma LastInFileBlocks(fs: Fs, meta: Meta, maxBlk: nat, chunks: seq<Bytes>)
    requires chunks != []
    ensures
      var last := chunks[|chunks| - 1];
      Block(fs.env.FromBytes(last), last) in FileBlocks(fs, meta, maxBlk, chunks)
  {
    hide TopBlocks, FileRoot;
  }

  lemma LastChunkNotVisited(dec: Decoders, view: BlockMap, meta: Meta, maxBlk: nat, chunks: seq<Bytes>)
    requires FileReady(dec) && Storable(chunks) && chunks != [] && LastChunkApart(dec, view, meta, maxBlk, chunks)
    requires ViewHolds(view, FileBlocks(dec.fs, meta, maxBlk, chunks))
    requires Inline(maxBlk, chunks) || !EarlierSettled(dec, view, chunks)
    ensures
      forall x :: x in WalkFrom(dec, view, FileMid(dec.fs, meta, maxBlk, chunks)).visited ==>
        x.hash != dec.fs.env.digest(chunks[|chunks| - 1])
  {
    hide EarlierSettled, EachComplete, IsTower, FileReady, FileMid, WalkFrom, Clear, FileBlocks, FileTower, InTower, Storable, Inline,
      LastChunkApart;
    LastOfTower(dec.fs, meta, maxBlk, chunks);
    if Inline(maxBlk, chunks) {
      InlineNeverVisits(dec, view, meta, maxBlk, chunks);
      RootIsApart(dec, view, meta, maxBlk, chunks);
    } else {
      FileTowerStands(dec, view, meta, maxBlk, chunks);
      FileIsClear(dec, view, meta, maxBlk, chunks);
      LeafRefsSettled(dec, view, chunks);
      LastEntryVisitedIff(dec, view, FileTower(dec.fs, meta, maxBlk, chunks));
    }
  }

  lemma LastOfTower(fs: Fs, meta: Meta, maxBlk: nat, chunks: seq<Bytes>)
    requires chunks != []
    ensures
      var entries := FileTower(fs, meta, maxBlk, chunks)[0];
      && entries != [] && entries == MidsOf(LeafRefs(fs.env, chunks))
      && entries[|entries| - 1].hash == fs.env.digest(chunks[|chunks| - 1])
    ensures RawBlocks(fs.env, chunks) <= FileBlocks(fs, meta, maxBlk, chunks)
  {
    hide TopBlocks, FileRoot, FileLevels;
  }

  lemma RootIsApart(dec: Decoders, view: BlockMap, meta: Meta, maxBlk: nat, chunks: seq<Bytes>)
    requires chunks != [] && LastChunkApart(dec, view, meta, maxBlk, chunks)
    ensures FileMid(dec.fs, meta, maxBlk, chunks).hash != dec.fs.env.digest(chunks[|chunks| - 1])
  {
    hide TopBlocks, FileRoot, Apart;
  }

  /** The walk from an inline FILE visits the root and nothing else. */
  lemma InlineNeverVisits(dec: Decoders, view: BlockMap, meta: Meta, maxBlk: nat, chunks: seq<Bytes>)
    requires FileReady(dec) && Storable(chunks) && Inline(maxBlk, chunks)
    requires ViewHolds(view, FileBlocks(dec.fs, meta, maxBlk, chunks))
    ensures
      var root := FileMid(dec.fs, meta, maxBlk, chunks);
      forall x :: x in WalkFrom(dec, view, root).visited ==> x == root
  {
    hide Reach, Children, TopBlocks, FileRoot, FileReady, Dfs, Universe;
    var root := FileMid(dec.fs, meta, maxBlk, chunks);
    RootChildren(dec, view, meta, maxBlk, chunks);
    UniverseClosed(dec, view, root);
    NothingTracked(dec, view);
    DfsSound(dec, view, false, Universe(dec, view, root), root, {}, []);
    forall x | x in WalkFrom(dec, view, root).visited ensures x == root {
      ChildlessReach(dec, view, root, x);
    }
  }

  lemma LastFileChunkLost(dec: Decoders, view: BlockMap, records: Records, now: int, meta: Meta, maxBlk: nat, chunks: seq<Bytes>)
    requires FileReady(dec) && chunks != [] && LastChunkApart(dec, view, meta, maxBlk, chunks)
    requires Roots(dec, records) == {FileMid(dec.fs, meta, maxBlk, chunks)} && records.manifests == map[]
    requires
      forall x :: x in WalkFrom(dec, view, FileMid(dec.fs, meta, maxBlk, chunks)).visited ==>
        x.hash != dec.fs.env.digest(chunks[|chunks| - 1])
    ensures dec.fs.env.digest(chunks[|chunks| - 1]) !in Collected(dec, view, records, 0, now)
  {
    hide Roots, TopBlocks, WalkFrom, Apart, Marks, FileRoot;
    var h := dec.fs.env.digest(chunks[|chunks| - 1]);
    dec.fs.env.DigestProper(chunks[|chunks| - 1]);
    assert MidsOf(LeafRefs(dec.fs.env, chunks))[|chunks| - 1].hash == h;
    if h in Marks(dec, view, records) {
      OnlyVisitedMarked(dec, view, records, FileMid(dec.fs, meta, maxBlk, chunks), h);
    }
  }

  /** A sealed file of one block keeps that block through a run with minAge 0 exactly when the file is not inline: when it
      is, the walk stops at the root, while the reader always fetches the block from the store. */
  lemma OneBlockFileKeptIff(dec: Decoders, view: BlockMap, records: Records, now: int, meta: Meta, maxBlk: nat, data: Bytes)
    requires FileReady(dec) && 0 < |data| < TWO64
    requires ViewHolds(view, FileBlocks(dec.fs, meta, maxBlk, [data]))
    requires Roots(dec, records) == {FileMid(dec.fs, meta, maxBlk, [data])} && records.manifests == map[]
    requires dec.fs.env.digest(data) != FileMid(dec.fs, meta, maxBlk, [data]).hash
    ensures dec.fs.env.digest(data) in Collected(dec, view, records, 0, now) <==> |data| > maxBlk
    ensures ViewHolds(Collected(dec, view, records, 0, now), FileBlocks(dec.fs, meta, maxBlk, [data])) <==> |data| > maxBlk
  {
    hide Roots, Collected, EarlierSettled, FileReady, FileRoot, TopBlocks;
    assert Flatten([data]) == data + Flatten([]) == data;
    assert Storable([data]);
    NoTopBlocks(dec.fs, LeafRefs(dec.fs.env, [data]));
    assert LastChunkApart(dec, view, meta, maxBlk, [data]);
    OneIsSettled(dec, view, data);
    SealedFileSurvivesIff(dec, view, records, now, meta, maxBlk, [data]);
    assert Block(dec.fs.env.FromBytes(data), [data][0]) in RawBlocks(dec.fs.env, [data]);
  }

  lemma OneIsSettled(dec: Decoders, view: BlockMap, data: Bytes)
    ensures EarlierSettled(dec, view, [data])
  {
  }

  /** An inline file does not: when nothing else keeps its one block, a run with minAge 0 deletes that block and keeps the
      root, although the reader always fetches the block from the store. */
  lemma InlineFileLosesItsBlock(dec: Decoders, view: BlockMap, records: Records, now: int,
                                meta: Meta, maxBlk: nat, data: Bytes)
    requires FileReady(dec) && 0 < |data| <= maxBlk && |data| < TWO64
    requires ViewHolds(view, FileBlocks(dec.fs, meta, maxBlk, [data]))
    requires Roots(dec, records) == {FileMid(dec.fs, meta, maxBlk, [data])} && records.manifests == map[]
    requires dec.fs.env.digest(data) != FileMid(dec.fs, meta, maxBlk, [data]).hash
    ensures
      var after := Collected(dec, view, records, 0, now);
      && FileMid(dec.fs, meta, maxBlk, [data]).hash in after
      && dec.fs.env.digest(data) !in after
      && FlatBlocks(dec.fs, map[], FileRoot(dec.fs, meta, maxBlk, [data]).blocks, 0) == Some([Ref(dec.fs.env.FromBytes(data), |data|)])
  {
    hide Reach, Children, Roots, TopBlocks, WalkFrom, Classify;
    var root, h := FileMid(dec.fs, meta, maxBlk, [data]), dec.fs.env.digest(data);
    assert Flatten([data]) == data + Flatten([]) == data;
    assert Storable([data]);
    var node := dec.fs.NodeBlock(FileRoot(dec.fs, meta, maxBlk, [data]));
    assert node in FileBlocks(dec.fs, meta, maxBlk, [data]) && node.mid == root;
    RootChildren(dec, view, meta, maxBlk, [data]);
    assert !LiveFrom(dec, view, records, root, h) by {
      forall x | Reach(dec, view, root, x) ensures x == root {
        ChildlessReach(dec, view, root, x);
      }
    }
    RootMarksAreLive(dec, view, records, root, h);
    assert h !in Marks(dec, view, records);
    assert root.hash in RootMarks(dec, view, records, root);
    NoTopBlocks(dec.fs, LeafRefs(dec.fs.env, [data]));
    FlattenInvertsAddFile(dec.fs, map[], meta, maxBlk, [data], 0);
    assert LeafRefs(dec.fs.env, [data]) == [Ref(dec.fs.env.FromBytes(data), |data|)];
  }

  lemma NoTopBlocks(fs: Fs, s: seq<Ref>)
    requires |s| < FANOUT
    ensures TopBlocks(fs, 0, s) == {}
  {
  }

  // ----------------------------------------------- AddFile, then reading

  /** Opening the FILE AddFile built and draining the reader returns the file, from any store that holds its blocks. */
  method ReadFile(fs: Fs, bs: map<Mid, Bytes>, root: Node, ghost meta: Meta, ghost maxBlk: nat, ghost chunks: seq<Bytes>,
                  depth: nat, p: array<byte>) returns (out: Bytes)
    requires fs.Sound() && Storable(chunks) && |Flatten(chunks)| < TWO63 && root == FileRoot(fs, meta, maxBlk, chunks)
    requires Stores(bs, FileBlocks(fs, meta, maxBlk, chunks))
    requires depth >= TopHeight(|chunks|) && p.Length > 0
    modifies p
    ensures out == Flatten(chunks)
  {
    hide FlatBlocks, FlatBlock, TopBlocks, FileRoot, Flatten, TopHeight;
    assert Stores(bs, TopBlocks(fs, 0, LeafRefs(fs.env, chunks)));
    FlattenInvertsAddFile(fs, bs, meta, maxBlk, chunks, depth);
    FileRootIsFile(fs, meta, maxBlk, chunks);
    var blocks := FlattenFileBlocks(fs, bs, root, depth);
    ghost var mids := MidsOf(LeafRefs(fs.env, chunks));
    forall i | 0 <= i < |chunks| ensures mids[i] in bs && bs[mids[i]] == chunks[i] {
      assert Block(fs.env.FromBytes(chunks[i]), chunks[i]) in FileBlocks(fs, meta, maxBlk, chunks);
    }
    var reader := new Reader(bs, blocks.value, chunks, root.fileSize);
    out := reader.ReadAll(p);
  }

  lemma FileRootIsFile(fs: Fs, meta: Meta, maxBlk: nat, chunks: seq<Bytes>)
    ensures FileRoot(fs, meta, maxBlk, chunks).kind == File
  {
  }

  /** Run the collector, then open and drain a sealed file: it comes back whole. */
  method CollectThenRead(store: Store, minAge: int, now: int, root: Node, ghost meta: Meta, ghost maxBlk: nat,
                         ghost chunks: seq<Bytes>, mids: set<Mid>, depth: nat, p: array<byte>) returns (out: Bytes)
    requires FileReady(store.dec) && Storable(chunks) && |Flatten(chunks)| < TWO63 && !Inline(maxBlk, chunks)
    requires ViewHolds(store.View(), FileBlocks(store.dec.fs, meta, maxBlk, chunks))
    requires EarlierSettled(store.dec, store.View(), chunks)
    requires root == FileRoot(store.dec.fs, meta, maxBlk, chunks)
    requires FileMid(store.dec.fs, meta, maxBlk, chunks) in Roots(store.dec, store.meta)
    requires forall b :: b in FileBlocks(store.dec.fs, meta, maxBlk, chunks) ==> b.mid in mids
    requires depth >= TopHeight(|chunks|) && p.Length > 0
    modifies store, p
    ensures out == Flatten(chunks)
  {
    hide Roots, Collected, FileBlocks, FileRoot, EarlierSettled, TopHeight, Flatten, Marks, Swept, KeptAsAccounted, FileMid;
    ghost var before := store.View();
    SealedFileSurvives(store.dec, before, store.meta, minAge, now, meta, maxBlk, chunks);
    var freed := store.GCWithMinAge(minAge, now);
    var bs := Seen(store.dagNs + store.blockNs, mids);
    assert Stores(bs, FileBlocks(store.dec.fs, meta, maxBlk, chunks));
    out := ReadFile(store.dec.fs, bs, root, meta, maxBlk, chunks, depth, p);
  }
}
