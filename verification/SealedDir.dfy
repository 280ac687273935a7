/** core/store/walk.go on single blocks: what each kind of block leads to, and what a sealed directory or descriptor keeps. */
module SealedDir {
  import opened Common
  import opened Wire
  import opened MemfsBuild
  import opened StoreWalk
  import opened Gc
  import opened SealedDag
  import opened SealedFile
  import opened Tower

  // ------------------------------------------------ what a block leads to

  /** Raw blocks over 16384 bytes are leaves unread; smaller ones are looked at like blocks of any codec but MemFS. */
  lemma LargeRawIsLeaf(dec: Decoders, data: Bytes)
    ensures |data| > 16384 ==> Classify(dec, 0x55, data) == Leaf
    ensures |data| <= 16384 ==> Classify(dec, 0x55, data) == Classify(dec, 0x70, data)
  {
    hide TryDescriptor, Unmarshal, ClassifyMemfs, ParseAll;
  }

  lemma {:induction false} EntriesAre(env: Env, entries: seq<Entry>)
    requires env.Sound() && forall i :: 0 <= i < |entries| ==> env.envelope(entries[i].hash)
    ensures
      var cs := EntryChildren(env, entries);
      && |cs| == |entries|
      && forall i :: 0 <= i < |cs| ==> cs[i] == Mid(if entries[i].kind == Raw then 0x55 else 0x72, entries[i].hash)
  {
    if entries != [] {
      EntriesAre(env, entries[1..]);
      env.ProperNotEmpty(Mid(0, entries[0].hash));
    }
  }

  lemma {:induction false} BlocksAre(env: Env, blocks: seq<BlockRef>)
    requires env.Sound() && forall i :: 0 <= i < |blocks| ==> env.envelope(blocks[i].hash)
    ensures
      var cs := BlockChildren(env, blocks);
      && |cs| == |blocks|
      && forall i :: 0 <= i < |cs| ==> cs[i] == Mid(if blocks[i].size > 0 then 0x55 else 0x72, blocks[i].hash)
  {
    if blocks != [] {
      BlocksAre(env, blocks[1..]);
      env.ProperNotEmpty(Mid(0, blocks[0].hash));
    }
  }

  lemma {:induction false} EntriesSkip(env: Env, a: seq<Entry>, bad: Entry, b: seq<Entry>)
    requires bad.hash == [] || !env.envelope(bad.hash)
    ensures EntryChildren(env, a + [bad] + b) == EntryChildren(env, a + b)
  {
    if a == [] {
      assert a + [bad] + b == [bad] + b && ([bad] + b)[1..] == b && a + b == b;
    } else {
      assert (a + [bad] + b)[1..] == a[1..] + [bad] + b && (a + b)[1..] == a[1..] + b;
      EntriesSkip(env, a[1..], bad, b);
    }
  }

  lemma {:induction false} BlocksSkip(env: Env, a: seq<BlockRef>, bad: BlockRef, b: seq<BlockRef>)
    requires bad.hash == [] || !env.envelope(bad.hash)
    ensures BlockChildren(env, a + [bad] + b) == BlockChildren(env, a + b)
  {
    if a == [] {
      assert a + [bad] + b == [bad] + b && ([bad] + b)[1..] == b && a + b == b;
    } else {
      assert (a + [bad] + b)[1..] == a[1..] + [bad] + b && (a + b)[1..] == a[1..] + b;
      BlocksSkip(env, a[1..], bad, b);
    }
  }

  lemma NodeClass(dec: Decoders, n: Node)
    requires FileReady(dec) && Representable(n)
    ensures Classify(dec, 0x72, dec.fs.encode(n)) == ClassifyMemfs(dec, dec.fs.encode(n)) && dec.fs.decode(dec.fs.encode(n)) == Some(n)
  {
    hide TryDescriptor, Undescribed, ClassifyMemfs;
    UndescribedIff(dec, dec.fs.encode(n));
  }

  /** A directory leads to its entries, in order: raw ones as raw blocks, all others as MemFS nodes. An empty one is a leaf. */
  lemma DirClass(dec: Decoders, n: Node)
    requires FileReady(dec) && Representable(n) && n.kind == Dir
    requires forall i :: 0 <= i < |n.entries| ==> dec.fs.env.envelope(n.entries[i].hash)
    ensures
      var c := Classify(dec, 0x72, dec.fs.encode(n));
      if n.entries == [] then c == Leaf
      else
        && c.Internal? && |c.children| == |n.entries|
        && forall i :: 0 <= i < |n.entries| ==>
             c.children[i] == Mid(if n.entries[i].kind == Raw then 0x55 else 0x72, n.entries[i].hash)
  {
    hide Classify, EntryChildren, BlockChildren;
    NodeClass(dec, n);
    EntriesAre(dec.fs.env, n.entries);
  }

  /** A file leads to its blocks, those with a size as raw blocks, the others as MemFS nodes; without blocks, or with inline
      data and at most one block, it is a leaf. */
  lemma FileClass(dec: Decoders, n: Node)
    requires FileReady(dec) && Representable(n) && n.kind == File
    requires forall i :: 0 <= i < |n.blocks| ==> dec.fs.env.envelope(n.blocks[i].hash)
    ensures
      var c := Classify(dec, 0x72, dec.fs.encode(n));
      if n.blocks == [] || (n.data != [] && |n.blocks| == 1) then c == Leaf
      else
        && c.Internal? && |c.children| == |n.blocks|
        && forall i :: 0 <= i < |n.blocks| ==>
             c.children[i] == Mid(if n.blocks[i].size > 0 then 0x55 else 0x72, n.blocks[i].hash)
  {
    hide Classify, EntryChildren, BlockChildren;
    NodeClass(dec, n);
    BlocksAre(dec.fs.env, n.blocks);
  }

  /** Links, raw and metadata nodes lead nowhere. */
  lemma OtherClass(dec: Decoders, n: Node)
    requires FileReady(dec) && Representable(n) && n.kind != File && n.kind != Dir
    ensures Classify(dec, 0x72, dec.fs.encode(n)) == Leaf
  {
    hide Classify;
    NodeClass(dec, n);
  }

  /** An entry or block with an empty or malformed multihash is passed over. */
  lemma MalformedSkipped(dec: Decoders, n: Node, a: seq<Entry>, bad: Entry, b: seq<Entry>, c: seq<BlockRef>, bad': BlockRef, d: seq<BlockRef>)
    requires FileReady(dec) && Representable(n)
    requires bad.hash == [] || !dec.fs.env.envelope(bad.hash)
    requires bad'.hash == [] || !dec.fs.env.envelope(bad'.hash)
    ensures n.kind == Dir && n.entries == a + [bad] + b && a + b != [] ==>
      Classify(dec, 0x72, dec.fs.encode(n)) == Classify(dec, 0x72, dec.fs.encode(n.(entries := a + b)))
    ensures n.kind == File && n.blocks == c + [bad'] + d && |c + d| > 1 ==>
      Classify(dec, 0x72, dec.fs.encode(n)) == Classify(dec, 0x72, dec.fs.encode(n.(blocks := c + d)))
  {
    hide Classify, EntryChildren, BlockChildren;
    NodeClass(dec, n);
    EntriesSkip(dec.fs.env, a, bad, b);
    BlocksSkip(dec.fs.env, c, bad', d);
    if n.kind == Dir && n.entries == a + [bad] + b && a + b != [] {
      SplitSizes(n, a, bad, b);
      NodeClass(dec, n.(entries := a + b));
    }
    if n.kind == File && n.blocks == c + [bad'] + d && |c + d| > 1 {
      SplitBlocks(n, c, bad', d);
      NodeClass(dec, n.(blocks := c + d));
    }
  }

  lemma SplitSizes(n: Node, a: seq<Entry>, bad: Entry, b: seq<Entry>)
    requires Representable(n) && n.entries == a + [bad] + b
    ensures Representable(n.(entries := a + b))
  {
    forall i | 0 <= i < |a + b| ensures (a + b)[i].size < TWO64 {
      assert (a + b)[i] == n.entries[if i < |a| then i else i + 1];
    }
  }

  lemma SplitBlocks(n: Node, a: seq<BlockRef>, bad: BlockRef, b: seq<BlockRef>)
    requires Representable(n) && n.blocks == a + [bad] + b
    ensures Representable(n.(blocks := a + b))
  {
    forall i | 0 <= i < |a + b| ensures (a + b)[i].size < TWO64 {
      assert (a + b)[i] == n.blocks[if i < |a| then i else i + 1];
    }
  }

  // ---------------------------------------------------------- descriptors

  lemma {:induction false} ParsesAre(env: Env, texts: seq<Bytes>, ms: seq<Mid>)
    requires |ms| == |texts| && forall i :: 0 <= i < |ms| ==> env.parse(texts[i]) == Some(ms[i])
    ensures ParseAll(env, texts) == ms
  {
    if texts != [] {
      ParsesAre(env, texts[1..], ms[1..]);
    }
  }

  lemma {:induction false} ParsesSkip(env: Env, a: seq<Bytes>, bad: Bytes, b: seq<Bytes>)
    requires env.parse(bad) == None
    ensures ParseAll(env, a + [bad] + b) == ParseAll(env, a + b)
  {
    if a == [] {
      assert a + [bad] + b == [bad] + b && ([bad] + b)[1..] == b && a + b == b;
    } else {
      assert (a + [bad] + b)[1..] == a[1..] + [bad] + b && (a + b)[1..] == a[1..] + b;
      ParsesSkip(env, a[1..], bad, b);
    }
  }

  /** The wrapped form: four magic bytes, version 1, the payload, 32 bytes of signature. */
  function Wrap32(body: Bytes, trailer: Bytes): Bytes { [0x4D, 0x45, 0x4D, 0x42, 1] + body + trailer }

  /** A block that decodes to a descriptor, bare or wrapped, leads to its root and then its blocks, in order. */
  lemma DescriptorClass(dec: Decoders, codec: Codec, data: Bytes, body: Bytes, trailer: Bytes, d: Descriptor, ms: seq<Mid>)
    requires codec != 0x55 || |data| <= 16384
    requires d.root != [] && d.blocks != [] && |ms| == 1 + |d.blocks|
    requires dec.fs.env.parse(d.root) == Some(ms[0])
    requires forall i :: 0 <= i < |d.blocks| ==> dec.fs.env.parse(d.blocks[i]) == Some(ms[i + 1])
    requires
      || dec.descriptor(data) == Some(d)
      || (&& (dec.descriptor(data) == None || dec.descriptor(data).value.root == [])
          && data == Wrap32(body, trailer) && |trailer| == 32 && dec.descriptor(body) == Some(d))
    ensures Classify(dec, codec, data) == Internal(ms)
  {
    hide ParseAll, Unmarshal, ClassifyMemfs;
    ParsesAre(dec.fs.env, [d.root] + d.blocks, ms);
    if data == Wrap32(body, trailer) && |trailer| == 32 {
      assert data[..4] == MAGIC && data[5..|data| - 32] == body;
    }
  }

  /** Any other block that is no MemFS node is read as a DAG node, whose links lead on in order; without links it is a leaf. */
  lemma LinksClass(dec: Decoders, codec: Codec, data: Bytes, node: DagNode, ms: seq<Mid>)
    requires codec != 0x72 && (codec != 0x55 || |data| <= 16384) && Undescribed(dec, data)
    requires Unmarshal(data) == Some(node) && |ms| == |node.links|
    requires forall i :: 0 <= i < |ms| ==> dec.fs.env.parse(node.links[i]) == Some(ms[i])
    ensures Classify(dec, codec, data) == if ms == [] then Leaf else Internal(ms)
  {
    hide ParseAll, Unmarshal, ClassifyMemfs, TryDescriptor, Undescribed;
    UndescribedIff(dec, data);
    ParsesAre(dec.fs.env, node.links, ms);
  }

  lemma UndecodedIsLeaf(dec: Decoders, codec: Codec, data: Bytes)
    requires Undescribed(dec, data)
    ensures codec != 0x72 && Unmarshal(data) == None ==> Classify(dec, codec, data) == Leaf
    ensures codec == 0x72 && dec.fs.decode(data) == None ==> Classify(dec, codec, data) == Leaf
  {
    hide ParseAll, Unmarshal, TryDescriptor, Undescribed;
    UndescribedIff(dec, data);
  }

  /** A text that does not parse is passed over. */
  lemma UnparsedSkipped(dec: Decoders, codec: Codec, data: Bytes, data': Bytes, d: Descriptor, a: seq<Bytes>, bad: Bytes, b: seq<Bytes>)
    requires codec != 0x55 || (|data| <= 16384 && |data'| <= 16384)
    requires d.root != [] && d.blocks == a + [bad] + b && a + b != [] && dec.fs.env.parse(bad) == None
    requires dec.descriptor(data) == Some(d) && dec.descriptor(data') == Some(d.(blocks := a + b))
    ensures Classify(dec, codec, data) == Classify(dec, codec, data')
  {
    hide ParseAll, Unmarshal, ClassifyMemfs;
    ParsesSkip(dec.fs.env, [d.root] + a, bad, b);
    assert [d.root] + d.blocks == [d.root] + a + [bad] + b && [d.root] + (a + b) == [d.root] + a + b;
  }

  // ------------------------------------------- what a sealed parent keeps

  /** Below a complete block that the walk came to, it came to everything. */
  lemma CompleteVisited(dec: Decoders, view: BlockMap, visited: set<Mid>, x: Mid, y: Mid)
    requires AllProgressed(dec, view, {}, visited) && x in visited && Complete(dec, view, x) && Reach(dec, view, x, y)
    ensures y in visited && y.hash in view
  {
    hide Children, Complete, Progressed, Reach;
    var s := set z | z in visited && Complete(dec, view, z);
    forall z, c | z in s && c in Children(dec, view, z) ensures c in s {
      ChildVisited(dec, view, visited, z, c);
    }
    ClosedContainsReach(dec, view, s, x, y);
    CompletePresent(dec, view, y);
  }

  lemma CompletePresent(dec: Decoders, view: BlockMap, x: Mid)
    requires Complete(dec, view, x)
    ensures x.hash in view
  {
    hide Reach;
    ReachSelf(dec, view, x);
  }

  lemma ChildVisited(dec: Decoders, view: BlockMap, visited: set<Mid>, z: Mid, c: Mid)
    requires AllProgressed(dec, view, {}, visited) && z in visited && Complete(dec, view, z) && c in Children(dec, view, z)
    ensures c in visited && Complete(dec, view, c)
  {
    hide Children, Complete, Reach;
    CompletePresent(dec, view, z);
    CompleteUnfold(dec, view, z);
    var g := Children(dec, view, z);
    EarlierIs(dec, view, g);
    GroupVisited(dec, view, z, g, visited);
    var i :| 0 <= i < |g| && g[i] == c;
  }

  /** A sealed block keeps itself and, if all of its children but the last are complete, every child and everything below
      the complete ones: for any minAge, whatever the other seals are, and whether the walk ends or fails. */
  lemma SealedParentSurvives(dec: Decoders, view: BlockMap, meta: Records, minAge: int, now: int, root: Mid, x: Mid)
    requires DirectSeal(dec, meta, root) && root.hash in view && x.hash in view
    requires EachComplete(dec, view, Earlier(Children(dec, view, root)))
    requires
      || x == root || x in Children(dec, view, root)
      || exists c :: c in Children(dec, view, root) && Complete(dec, view, c) && Reach(dec, view, c, x)
    ensures
      var after := Collected(dec, view, meta, minAge, now);
      x.hash in after && after[x.hash] == view[x.hash]
  {
    hide Children, Complete, Reach, Collected, WalkFrom, AllProgressed, EachComplete;
    var g, visited := Children(dec, view, root), WalkFrom(dec, view, root).visited;
    WalkProgresses(dec, view, root);
    ProgressedHere(dec, view, root, visited);
    GroupVisited(dec, view, root, g, visited);
    if c :| c in g && Complete(dec, view, c) && Reach(dec, view, c, x) {
      var i :| 0 <= i < |g| && g[i] == c;
      CompleteVisited(dec, view, visited, c, x);
    }
    assert x in visited;
    assert AccountedBy(dec, view, meta, root, x.hash);
    AccountedSurvives(dec, view, meta, minAge, now, x.hash);
  }

  lemma WalkProgresses(dec: Decoders, view: BlockMap, root: Mid)
    ensures root in WalkFrom(dec, view, root).visited && AllProgressed(dec, view, {}, WalkFrom(dec, view, root).visited)
  {
    hide Dfs, AllProgressed, Universe;
    UniverseClosed(dec, view, root);
    NothingTracked(dec, view);
    DfsProgresses(dec, view, false, Universe(dec, view, root), root, {}, []);
    RootVisited(dec, view, root);
  }

  lemma ProgressedHere(dec: Decoders, view: BlockMap, x: Mid, visited: set<Mid>)
    requires AllProgressed(dec, view, {}, visited) && x in visited
    ensures Progressed(dec, view, x, visited)
  {
  }

  /** The MID under which entry `i` of a directory is looked for. */
  function EntryMid(n: Node, i: nat): Mid
    requires i < |n.entries|
  {
    Mid(if n.entries[i].kind == Raw then 0x55 else 0x72, n.entries[i].hash)
  }

  lemma DirChildren(dec: Decoders, view: BlockMap, n: Node)
    requires FileReady(dec) && Representable(n) && n.kind == Dir
    requires forall i :: 0 <= i < |n.entries| ==> dec.fs.env.envelope(n.entries[i].hash)
    requires ViewHolds(view, {dec.fs.NodeBlock(n)})
    ensures
      var cs := Children(dec, view, dec.fs.NodeBlock(n).mid);
      && |cs| == |n.entries|
      && forall i :: 0 <= i < |n.entries| ==> cs[i] == Mid(if n.entries[i].kind == Raw then 0x55 else 0x72, n.entries[i].hash)
  {
    hide Classify, FileReady;
    var b := dec.fs.NodeBlock(n);
    assert b in {b};
    DirClass(dec, n);
  }

  /** A sealed directory whose entries but the last are complete keeps itself, every entry that is stored, and everything
      below the complete ones. */
  lemma SealedDirSurvives(dec: Decoders, view: BlockMap, meta: Records, minAge: int, now: int, n: Node, x: Mid)
    requires FileReady(dec) && Representable(n) && n.kind == Dir
    requires forall i :: 0 <= i < |n.entries| ==> dec.fs.env.envelope(n.entries[i].hash)
    requires ViewHolds(view, {dec.fs.NodeBlock(n)}) && DirectSeal(dec, meta, dec.fs.NodeBlock(n).mid)
    requires forall i :: 0 <= i < |n.entries| - 1 ==> Complete(dec, view, EntryMid(n, i))
    requires x.hash in view
    requires
      || x == dec.fs.NodeBlock(n).mid
      || (exists i :: 0 <= i < |n.entries| && x == EntryMid(n, i))
      || exists i :: 0 <= i < |n.entries| && Complete(dec, view, EntryMid(n, i)) && Reach(dec, view, EntryMid(n, i), x)
    ensures
      var after := Collected(dec, view, meta, minAge, now);
      x.hash in after && after[x.hash] == view[x.hash]
  {
    hide Children, Complete, Reach, Collected, FileReady, DirectSeal;
    var root := dec.fs.NodeBlock(n).mid;
    assert dec.fs.NodeBlock(n) in {dec.fs.NodeBlock(n)};
    DirChildren(dec, view, n);
    var cs := Children(dec, view, root);
    forall i | 0 <= i < |n.entries| ensures cs[i] == EntryMid(n, i) && cs[i] in cs {
    }
    SealedParentSurvives(dec, view, meta, minAge, now, root, x);
  }

  /** A file in a sealed directory: not inline, all of its chunks settled, the entries before it complete. Every block that
      AddFile wrote for it survives. */
  lemma FileInDirSurvives(dec: Decoders, view: BlockMap, meta: Records, minAge: int, now: int, n: Node, i: nat,
                          fileMeta: Meta, maxBlk: nat, chunks: seq<Bytes>)
    requires FileReady(dec) && Representable(n) && n.kind == Dir && i < |n.entries|
    requires forall j :: 0 <= j < |n.entries| ==> dec.fs.env.envelope(n.entries[j].hash)
    requires ViewHolds(view, {dec.fs.NodeBlock(n)}) && DirectSeal(dec, meta, dec.fs.NodeBlock(n).mid)
    requires forall j :: 0 <= j < |n.entries| - 1 ==> Complete(dec, view, EntryMid(n, j))
    requires Storable(chunks) && !Inline(maxBlk, chunks) && AllSettled(dec, view, chunks)
    requires n.entries[i].kind == File && n.entries[i].hash == FileMid(dec.fs, fileMeta, maxBlk, chunks).hash
    requires ViewHolds(view, FileBlocks(dec.fs, fileMeta, maxBlk, chunks))
    ensures ViewHolds(Collected(dec, view, meta, minAge, now), FileBlocks(dec.fs, fileMeta, maxBlk, chunks))
  {
    hide Complete, Reach, Collected, FileReady, DirectSeal, FileBlocks, FileRoot, AllSettled;
    var root := FileMid(dec.fs, fileMeta, maxBlk, chunks);
    FileCompleteIff(dec, view, fileMeta, maxBlk, chunks);
    assert EntryMid(n, i) == root;
    forall b | b in FileBlocks(dec.fs, fileMeta, maxBlk, chunks)
      ensures
        var after := Collected(dec, view, meta, minAge, now);
        b.mid.hash in after && after[b.mid.hash] == b.data
    {
      FileReaches(dec, view, fileMeta, maxBlk, chunks, b);
      SealedDirSurvives(dec, view, meta, minAge, now, n, b.mid);
    }
  }
}
