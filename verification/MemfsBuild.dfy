/** core/memfs/builder.go: FILE trees, built with the same carry structure as the DAG. */
module MemfsBuild {
  import opened Common
  import opened Carry
  import opened DagBuild

  datatype Kind = Raw | File | Dir | Symlink | Metadata

  /** A child reference inside a FILE node: multihash and size; size 0 marks an intermediate FILE child. */
  datatype BlockRef = BlockRef(hash: Bytes, size: nat)

  datatype Entry = Entry(name: string, hash: Bytes, kind: Kind, size: nat)

  datatype Node = Node(kind: Kind, data: Bytes, fileSize: nat, blocks: seq<BlockRef>, entries: seq<Entry>,
                       mode: u32, mtime: i64, mime: string)

  /** Sizes that fit the uint64 fields of the message. */
  predicate Representable(n: Node) {
    && n.fileSize < TWO64
    && (forall i :: 0 <= i < |n.blocks| ==> n.blocks[i].size < TWO64)
    && (forall i :: 0 <= i < |n.entries| ==> n.entries[i].size < TWO64)
  }

  /** The MemFSNode message codec is generated code; only its round trip is used. */
  datatype Fs = Fs(env: Env, encode: Node -> Bytes, decode: Bytes -> Option<Node>) {
    ghost predicate Sound() {
      env.Sound() && forall n :: Representable(n) ==> decode(encode(n)) == Some(n)
    }

    function NodeBlock(n: Node): Block { Block(env.MemfsMid(encode(n)), encode(n)) }
  }

  datatype Ref = Ref(mid: Mid, size: nat)

  function SumRefs(s: seq<Ref>): nat {
    if s == [] then 0 else s[0].size + SumRefs(s[1..])
  }

  lemma {:induction false} SumRefsAppend(a: seq<Ref>, b: seq<Ref>)
    ensures SumRefs(a + b) == SumRefs(a) + SumRefs(b)
  {
    if a == [] {
      assert a + b == b;
    } else {
      assert (a + b)[1..] == a[1..] + b;
      SumRefsAppend(a[1..], b);
    }
  }

  /** How a reference is written into its parent: the size is kept for raw blocks only. */
  function Stored(level: nat, r: Ref): BlockRef { BlockRef(r.mid.hash, if level == 0 then r.size else 0) }

  function StoredAll(level: nat, g: seq<Ref>): (r: seq<BlockRef>)
    ensures |r| == |g|
  {
    seq(|g|, i requires 0 <= i < |g| => Stored(level, g[i]))
  }

  function GroupNode(level: nat, g: seq<Ref>): Node {
    Node(File, [], SumRefs(g), StoredAll(level, g), [], 0, 0, "")
  }

  function FsTree(fs: Fs): Tree<Ref, Block> {
    Tree((level, g) => Ref(fs.NodeBlock(GroupNode(level, g)).mid, SumRefs(g)),
         (level, g) => fs.NodeBlock(GroupNode(level, g)))
  }

  lemma FsTreeNode(fs: Fs, level: nat, g: seq<Ref>)
    ensures FsTree(fs).parent(level, g) == Ref(fs.NodeBlock(GroupNode(level, g)).mid, SumRefs(g))
    ensures FsTree(fs).block(level, g) == fs.NodeBlock(GroupNode(level, g))
  {
  }

  // ----------------------------------------------- sizes along the tree

  /** References whose sizes add up to a uint64. */
  predicate Fits(s: seq<Ref>) { SumRefs(s) < TWO64 }

  lemma {:induction false} SizeWithinSum(s: seq<Ref>, i: nat)
    requires i < |s|
    ensures s[i].size <= SumRefs(s)
  {
    if i > 0 {
      SizeWithinSum(s[1..], i - 1);
    }
  }

  lemma GroupRepresentable(level: nat, g: seq<Ref>)
    requires Fits(g)
    ensures Representable(GroupNode(level, g))
  {
    forall i | 0 <= i < |g| ensures StoredAll(level, g)[i].size < TWO64 {
      SizeWithinSum(g, i);
    }
  }

  lemma GroupFits(s: seq<Ref>, k: nat)
    requires k < Groups(|s|) && Fits(s)
    ensures Fits(Group(s, k))
  {
    hide SumRefs;
    var lo, hi := k * FANOUT, Min((k + 1) * FANOUT, |s|);
    assert s == s[..lo] + (s[lo..hi] + s[hi..]);
    SumRefsAppend(s[..lo], s[lo..hi] + s[hi..]);
    SumRefsAppend(s[lo..hi], s[hi..]);
  }

  /** A run of markers as long as the size. */
  function Markers(r: Ref): seq<bool> { seq(r.size, i => true) }

  lemma {:induction false} MarkersAddUp(s: seq<Ref>)
    ensures MapConcat(Markers, s) == seq(SumRefs(s), i => true)
  {
    if s != [] {
      MarkersAddUp(s[1..]);
    }
  }

  /** Sizes of the parents add up to the same total. */
  lemma ParentsSum(fs: Fs, level: nat, s: seq<Ref>)
    ensures SumRefs(AllParents(FsTree(fs), level, s)) == SumRefs(s)
  {
    hide MapConcat, SumRefs;
    var t, ps := FsTree(fs), AllParents(FsTree(fs), level, s);
    forall k | 0 <= k < Groups(|s|) ensures Markers(t.parent(level, Group(s, k))) == MapConcat(Markers, Group(s, k)) {
      FsTreeNode(fs, level, Group(s, k));
      MarkersAddUp(Group(s, k));
    }
    Regroup(t, level, s, Markers, Markers);
    MarkersAddUp(s);
    MarkersAddUp(ps);
    assert |MapConcat(Markers, ps)| == |MapConcat(Markers, s)|;
  }

  /** Attributes of the file that only the root carries. */
  datatype Meta = Meta(mode: u32, mtime: i64, mime: string)

  function RootNode(meta: Meta, maxBlk: nat, level: nat, top: seq<Ref>, total: nat, single: Bytes): Node {
    Node(File, if 0 < |single| <= maxBlk then single else [], total, StoredAll(level, top), [],
         meta.mode, if meta.mtime > 0 then meta.mtime else 0, meta.mime)
  }

  /** Reference: reduce whole levels until fewer than FANOUT entries remain; the root sits over those. */
  datatype Top = Top(level: nat, refs: seq<Ref>)

  function TopOf(fs: Fs, level: nat, s: seq<Ref>): Top
    decreases |s|
  {
    if |s| < FANOUT then Top(level, s) else TopOf(fs, level + 1, AllParents(FsTree(fs), level, s))
  }

  ghost function TopBlocks(fs: Fs, level: nat, s: seq<Ref>): set<Block>
    decreases |s|
  {
    if |s| < FANOUT then {}
    else LevelBlocks(FsTree(fs), level, s, Groups(|s|)) + TopBlocks(fs, level + 1, AllParents(FsTree(fs), level, s))
  }

  /** Batch progress towards the top. */
  ghost predicate Climbed(fs: Fs, level: nat, s: seq<Ref>, done: set<Block>, leaves: seq<Ref>, base: set<Block>) {
    && s != []
    && TopOf(fs, level, s) == TopOf(fs, 0, leaves)
    && done + TopBlocks(fs, level, s) == base + TopBlocks(fs, 0, leaves)
  }

  lemma ClimbStart(fs: Fs, leaves: seq<Ref>, base: set<Block>)
    requires leaves != []
    ensures Climbed(fs, 0, leaves, base, leaves, base)
  {
  }

  lemma ClimbStep(fs: Fs, level: nat, s: seq<Ref>, done: set<Block>, leaves: seq<Ref>, base: set<Block>)
    requires Climbed(fs, level, s, done, leaves, base) && |s| >= FANOUT
    ensures Climbed(fs, level + 1, AllParents(FsTree(fs), level, s),
                    done + LevelBlocks(FsTree(fs), level, s, Groups(|s|)), leaves, base)
    ensures |AllParents(FsTree(fs), level, s)| < |s|
  {
    var here := LevelBlocks(FsTree(fs), level, s, Groups(|s|));
    var above := TopBlocks(fs, level + 1, AllParents(FsTree(fs), level, s));
    assert TopBlocks(fs, level, s) == here + above;
    assert done + (here + above) == done + here + above;
  }

  lemma ClimbEnd(fs: Fs, level: nat, s: seq<Ref>, done: set<Block>, leaves: seq<Ref>, base: set<Block>)
    requires Climbed(fs, level, s, done, leaves, base) && |s| < FANOUT
    ensures TopOf(fs, 0, leaves) == Top(level, s) && done == base + TopBlocks(fs, 0, leaves)
  {
    assert TopBlocks(fs, level, s) == {};
  }

  class MemfsStack {
    const fs: Fs
    const bs: Blockstore
    const meta: Meta
    const maxBlk: nat
    var levels: seq<seq<Ref>>
    var totalSize: nat
    var totalLeafs: nat
    var singleData: Bytes

    ghost predicate Valid()
      reads this, bs
    {
      bs.Valid() && bs.env == fs.env
    }

    constructor (fs: Fs, bs: Blockstore, meta: Meta, maxBlk: nat)
      requires bs.Valid() && bs.env == fs.env
      ensures Valid() && this.fs == fs && this.bs == bs && this.meta == meta && this.maxBlk == maxBlk
      ensures levels == [] && totalSize == 0 && totalLeafs == 0 && singleData == []
    {
      this.fs, this.bs, this.meta, this.maxBlk := fs, bs, meta, maxBlk;
      levels, totalSize, totalLeafs, singleData := [], 0, 0, [];
    }

    /** The stack after these leaves. */
    ghost predicate Holding(leaves: seq<Ref>, base: set<Block>)
      reads this, bs
    {
      && Streamed(FsTree(fs), levels, bs.puts, 0, leaves, base)
      && totalSize == SumRefs(leaves) && totalLeafs == |leaves|
      && (|leaves| != 1 ==> singleData == []) && Lean(levels)
    }

    /** The memory bound, between any two leaves. */
    lemma StackIsSmall(leaves: seq<Ref>, base: set<Block>)
      requires Holding(leaves, base)
      ensures Small(levels, |leaves|)
    {
      MemoryBound(FsTree(fs), levels, bs.puts, leaves, base);
    }

    method PutNode(n: Node) returns (m: Mid)
      requires Valid()
      modifies bs
      ensures Valid() && m == fs.NodeBlock(n).mid && bs.puts == old(bs.puts) + {fs.NodeBlock(n)}
    {
      var raw := fs.encode(n);
      m := fs.env.MemfsMid(raw);
      var ok := bs.Put(m, raw);
    }

    /** An intermediate FILE node over `children`: its FileSize adds theirs up, and sizes are kept at level 0 only. */
    method Collapse(level: nat, children: seq<Ref>) returns (r: Option<Ref>)
      requires Valid()
      modifies bs
      ensures Valid()
      ensures children == [] ==> r == None && bs.puts == old(bs.puts)
      ensures children != [] ==>
        && r == Some(Ref(fs.NodeBlock(GroupNode(level, children)).mid, SumRefs(children)))
        && bs.puts == old(bs.puts) + {fs.NodeBlock(GroupNode(level, children))}
    {
      if children == [] {
        return None;
      }
      var groupSize, blocks, i := 0, [], 0;
      while i < |children|
        invariant 0 <= i <= |children| && Valid() && bs.puts == old(bs.puts)
        invariant groupSize == SumRefs(children[..i]) && blocks == StoredAll(level, children[..i])
      {
        assert children[..i + 1] == children[..i] + [children[i]];
        SumRefsAppend(children[..i], [children[i]]);
        var size := 0;
        if level == 0 {
          size := children[i].size;
        }
        blocks := blocks + [BlockRef(children[i].mid.hash, size)];
        groupSize := groupSize + children[i].size;
        i := i + 1;
      }
      assert children[..i] == children;
      var m := PutNode(Node(File, [], groupSize, blocks, [], 0, 0, ""));
      return Some(Ref(m, groupSize));
    }

    method Push(level: nat, x: Ref, ghost s: seq<Ref>, ghost base: set<Block>)
      requires Valid()
      requires Streamed(FsTree(fs), levels, bs.puts, level, s, base)
      modifies this`levels, bs
      ensures Valid()
      ensures Streamed(FsTree(fs), levels, bs.puts, level, s + [x], base)
      ensures |levels| > level && |levels| >= |old(levels)|
      ensures forall j :: 0 <= j < level && j < |old(levels)| ==> levels[j] == old(levels)[j]
      ensures old(|levels| <= level || Lean(levels)) ==> Lean(levels)
      decreases if level < |levels| then |levels| - level else 0
    {
      hide Streamed, Tail, FullParents, CarryBase, GroupNode, FsTree;
      ghost var t := FsTree(fs);
      while |levels| <= level
        invariant |levels| >= |old(levels)| && Valid()
        invariant Streamed(t, levels, bs.puts, level, s, base)
        invariant forall j :: 0 <= j < |old(levels)| ==> levels[j] == old(levels)[j]
        invariant forall j :: |old(levels)| <= j < |levels| ==> levels[j] == []
        invariant |levels| > |old(levels)| ==> |levels| <= level + 1
      {
        StreamedGrow(t, levels, bs.puts, level, s, base);
        levels := levels + [[]];
      }
      StreamedAppend(t, levels, bs.puts, level, s, base, x);
      if |levels[level]| + 1 < FANOUT {
        levels := levels[level := levels[level] + [x]];
        return;
      }
      StreamedCarry(t, levels, bs.puts, level, s, base, x);
      FsTreeNode(fs, level, levels[level] + [x]);
      var parent := Collapse(level, levels[level] + [x]);
      levels := levels[level := []];
      Push(level + 1, parent.value, FullParents(t, level, s), CarryBase(t, level, s + [x], base));
      StreamedCarried(t, levels, bs.puts, level, s, base, x);
    }

    method PushLeaf(m: Mid, size: nat, raw: Bytes, ghost leaves: seq<Ref>, ghost base: set<Block>)
      requires Valid() && Holding(leaves, base)
      modifies this, bs
      ensures Valid() && Holding(leaves + [Ref(m, size)], base)
      ensures leaves == [] ==> singleData == raw
    {
      hide Streamed, FsTree;
      SumRefsAppend(leaves, [Ref(m, size)]);
      totalSize, totalLeafs := totalSize + size, totalLeafs + 1;
      if totalLeafs == 1 {
        singleData := raw;
      } else {
        singleData := [];
      }
      Push(0, Ref(m, size), leaves, base);
    }

    method Topmost(i: nat) returns (top: bool)
      ensures top <==> EmptyFrom(levels, i + 1)
    {
      var j := i + 1;
      while j < |levels|
        invariant i + 1 <= j
        invariant forall k :: i + 1 <= k < j && k < |levels| ==> levels[k] == []
      {
        if |levels[j]| > 0 {
          return false;
        }
        j := j + 1;
      }
      return true;
    }

    /** The finished tree is the reference one: root over the top entries, every intermediate node written. */
    method Finalize(ghost leaves: seq<Ref>, ghost base: set<Block>) returns (m: Mid, ghost root: Node)
      requires Valid() && Holding(leaves, base)
      modifies this`levels, bs
      ensures Valid()
      ensures m == fs.NodeBlock(root).mid
      ensures leaves == [] ==> root == RootNode(meta, maxBlk, 0, [], 0, [])
      ensures leaves != [] ==>
        var top := TopOf(fs, 0, leaves);
        root == RootNode(meta, maxBlk, top.level, top.refs, SumRefs(leaves), if |leaves| == 1 then singleData else [])
      ensures bs.puts == base + TopBlocks(fs, 0, leaves) + {fs.NodeBlock(root)}
    {
      hide Streamed, Climbed, FsTree, FullParents, AllParents, LevelBlocks, EmptyFrom, TopOf, TopBlocks, GroupNode;
      if totalLeafs == 0 {
        root := RootNode(meta, maxBlk, 0, [], 0, []);
        assert leaves == [];
        NothingToClimb(fs, levels, bs.puts, base);
        m := PutNode(Node(File, [], 0, [], [], meta.mode, if meta.mtime > 0 then meta.mtime else 0, meta.mime));
        return;
      }
      ghost var t := FsTree(fs);
      ghost var s, done := leaves, base;
      var i := 0;
      ClimbStart(fs, leaves, base);
      while i < |levels|
        invariant Valid() && s != []
        invariant Streamed(t, levels, bs.puts, i, s, done)
        invariant Climbed(fs, i, s, done, leaves, base)
        decreases |s|
      {
        if |levels[i]| == 0 {
          StreamedSkip(t, levels, bs.puts, i, s, done);
          ClimbStep(fs, i, s, done, leaves, base);
          done := done + LevelBlocks(t, i, s, Groups(|s|));
          s := AllParents(t, i, s);
          i := i + 1;
          continue;
        }
        StreamedTop(t, levels, bs.puts, i, s, done);
        var top := Topmost(i);
        if top {
          BufferBelowFanout(t, levels, bs.puts, i, s, done);
          ClimbEnd(fs, i, s, done, leaves, base);
          m, root := BuildRoot(i, levels[i]);
          return;
        }
        StreamedFlush(t, levels, bs.puts, i, s, done);
        FsTreeNode(fs, i, levels[i]);
        ClimbStep(fs, i, s, done, leaves, base);
        var parent := Collapse(i, levels[i]);
        levels := levels[i := []];
        done := done + LevelBlocks(t, i, s, Groups(|s|));
        Push(i + 1, parent.value, FullParents(t, i, s), done);
        s := AllParents(t, i, s);
        i := i + 1;
      }
      StreamedNothing(t, levels, bs.puts, i, s, done);
      assert false;
    }

    method BuildRoot(level: nat, children: seq<Ref>) returns (m: Mid, ghost root: Node)
      requires Valid()
      modifies bs
      ensures Valid()
      ensures root == RootNode(meta, maxBlk, level, children, totalSize, if totalLeafs == 1 then singleData else [])
      ensures m == fs.NodeBlock(root).mid && bs.puts == old(bs.puts) + {fs.NodeBlock(root)}
    {
      var data: Bytes := [];
      if totalLeafs == 1 && |singleData| > 0 && |singleData| <= maxBlk {
        data := singleData;
      }
      var mtime := if meta.mtime > 0 then meta.mtime else 0;
      root := Node(File, data, totalSize, StoredAll(level, children), [], meta.mode, mtime, meta.mime);
      m := PutNode(Node(File, data, totalSize, StoredAll(level, children), [], meta.mode, mtime, meta.mime));
    }
  }

  lemma NothingToClimb(fs: Fs, levels: seq<seq<Ref>>, puts: set<Block>, base: set<Block>)
    requires Streamed(FsTree(fs), levels, puts, 0, [], base)
    ensures puts == base + TopBlocks(fs, 0, [])
    ensures StoredAll(0, []) == []
  {
  }

  lemma BufferBelowFanout(t: Tree<Ref, Block>, levels: seq<seq<Ref>>, puts: set<Block>, level: nat, s: seq<Ref>, base: set<Block>)
    requires Streamed(t, levels, puts, level, s, base) && level < |levels| && EmptyFrom(levels, level + 1)
    requires levels[level] != []
    ensures |s| < FANOUT
  {
    StreamedTop(t, levels, puts, level, s, base);
    assert |Tail(s)| < FANOUT;
  }

  // ------------------------------------------------------------ AddFile

  function LeafRefs(env: Env, chunks: seq<Bytes>): (r: seq<Ref>)
    ensures |r| == |chunks|
  {
    seq(|chunks|, i requires 0 <= i < |chunks| => Ref(env.FromBytes(chunks[i]), |chunks[i]|))
  }

  ghost function RawBlocks(env: Env, chunks: seq<Bytes>): set<Block> {
    set i | 0 <= i < |chunks| :: Block(env.FromBytes(chunks[i]), chunks[i])
  }

  /** The root node AddFile must produce for these chunks. */
  function FileRoot(fs: Fs, meta: Meta, maxBlk: nat, chunks: seq<Bytes>): Node {
    var leaves := LeafRefs(fs.env, chunks);
    var top := TopOf(fs, 0, leaves);
    RootNode(meta, maxBlk, top.level, top.refs, SumRefs(leaves), if |chunks| == 1 then chunks[0] else [])
  }

  lemma ChunkSnoc(env: Env, chunks: seq<Bytes>, i: nat)
    requires i < |chunks|
    ensures LeafRefs(env, chunks[..i + 1]) == LeafRefs(env, chunks[..i]) + [Ref(env.FromBytes(chunks[i]), |chunks[i]|)]
    ensures RawBlocks(env, chunks[..i + 1]) == RawBlocks(env, chunks[..i]) + {Block(env.FromBytes(chunks[i]), chunks[i])}
  {
    var p, p' := chunks[..i], chunks[..i + 1];
    assert p' == p + [chunks[i]];
    assert LeafRefs(env, p') == LeafRefs(env, p) + [Ref(env.FromBytes(chunks[i]), |chunks[i]|)];
    forall k | 0 <= k < i ensures p'[k] == p[k] { }
    assert p'[i] == chunks[i];
    assert RawBlocks(env, p') == RawBlocks(env, p) + {Block(env.FromBytes(chunks[i]), chunks[i])};
  }

  lemma EmptyFileRoot(fs: Fs, meta: Meta, maxBlk: nat)
    ensures FileRoot(fs, meta, maxBlk, []) == RootNode(meta, maxBlk, 0, [], 0, [])
    ensures LeafRefs(fs.env, []) == [] && RawBlocks(fs.env, []) == {}
  {
    assert LeafRefs(fs.env, []) == [];
  }

  /** Stores one raw chunk and pushes its reference. */
  method AddChunk(stack: MemfsStack, chunk: Bytes, ghost leaves: seq<Ref>, ghost base: set<Block>)
    requires stack.Valid() && stack.Holding(leaves, base)
    modifies stack, stack.bs
    ensures stack.Valid()
    ensures stack.Holding(leaves + [Ref(stack.fs.env.FromBytes(chunk), |chunk|)],
                          base + {Block(stack.fs.env.FromBytes(chunk), chunk)})
    ensures leaves == [] ==> stack.singleData == chunk
  {
    hide Streamed, FsTree;
    var m := stack.fs.env.FromBytes(chunk);
    ghost var before := stack.bs.puts;
    var ok := stack.bs.Put(m, chunk);
    StreamedBase(FsTree(stack.fs), stack.levels, before, 0, leaves, base, Block(m, chunk));
    stack.PushLeaf(m, |chunk|, chunk, leaves, base + {Block(m, chunk)});
  }

  /** AddFile on chunks taken in order (empty files included): the reference root and exactly the reference blocks. */
  method AddFile(fs: Fs, bs: Blockstore, meta: Meta, maxBlk: nat, chunks: seq<Bytes>) returns (m: Mid)
    requires bs.Valid() && bs.env == fs.env
    modifies bs
    ensures bs.Valid()
    ensures m == fs.NodeBlock(FileRoot(fs, meta, maxBlk, chunks)).mid
    ensures bs.puts == old(bs.puts) + RawBlocks(fs.env, chunks) + TopBlocks(fs, 0, LeafRefs(fs.env, chunks))
                       + {fs.NodeBlock(FileRoot(fs, meta, maxBlk, chunks))}
  {
    hide Streamed, FsTree, TopOf, TopBlocks, LeafRefs, RawBlocks, RootNode;
    EmptyFileRoot(fs, meta, maxBlk);
    ghost var base := bs.puts;
    var stack := new MemfsStack(fs, bs, meta, maxBlk);
    StreamedStart(FsTree(fs), bs.puts);
    var i := 0;
    assert chunks[..0] == [];
    while i < |chunks|
      invariant 0 <= i <= |chunks| && fresh(stack)
      invariant stack.fs == fs && stack.bs == bs && stack.meta == meta && stack.maxBlk == maxBlk
      invariant stack.Valid() && stack.Holding(LeafRefs(fs.env, chunks[..i]), base)
      invariant base == old(bs.puts) + RawBlocks(fs.env, chunks[..i])
      invariant i == 1 ==> stack.singleData == chunks[0]
    {
      ChunkSnoc(fs.env, chunks, i);
      AddChunk(stack, chunks[i], LeafRefs(fs.env, chunks[..i]), base);
      base := base + {Block(fs.env.FromBytes(chunks[i]), chunks[i])};
      i := i + 1;
    }
    assert chunks[..i] == chunks;
    ghost var root;
    m, root := stack.Finalize(LeafRefs(fs.env, chunks), base);
  }
}
