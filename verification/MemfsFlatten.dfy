/** core/memfs/reader.go, flattenFileBlocks: reading a FILE tree back as the ordered list of its raw blocks. */
module MemfsFlatten {
  import opened Common
  import opened Carry
  import opened DagBuild
  import opened MemfsBuild
  import opened DagResolve

  /** The raw blocks below one child reference, with the size each was recorded under. `depth` bounds the recursion. */
  function FlatBlock(fs: Fs, bs: map<Mid, Bytes>, b: BlockRef, depth: nat): Option<seq<Ref>>
    decreases depth, 0, 0
  {
    if b.size > 0 then Some([Ref(Mid(CODEC_RAW, b.hash), b.size)])
    else
      var m := Mid(CODEC_MEMFS, b.hash);
      if depth == 0 || m !in bs then None
      else
        match fs.decode(bs[m])
        case Some(child) =>
          if child.kind == File && child.blocks != [] then FlatBlocks(fs, bs, child.blocks, depth - 1)
          else Some([Ref(m, 0)])
        case None => Some([Ref(m, 0)])
  }

  function FlatBlocks(fs: Fs, bs: map<Mid, Bytes>, blocks: seq<BlockRef>, depth: nat): Option<seq<Ref>>
    decreases depth, 1, |blocks|
  {
    if blocks == [] then Some([])
    else
      var n := |blocks| - 1;
      match (FlatBlocks(fs, bs, blocks[..n], depth), FlatBlock(fs, bs, blocks[n], depth))
      case (Some(front), Some(last)) => Some(front + last)
      case _ => None
  }

  function MidsOf(refs: seq<Ref>): (r: seq<Mid>)
    ensures |r| == |refs|
  {
    seq(|refs|, i requires 0 <= i < |refs| => refs[i].mid)
  }

  lemma MidsOfAppend(a: seq<Ref>, b: seq<Ref>)
    ensures MidsOf(a + b) == MidsOf(a) + MidsOf(b)
  {
  }

  /** The recursive, appending loop of the source computes exactly the functional flattening; a node that is not a
      FILE, or a missing intermediate child, is an error. */
  method FlattenFileBlocks(fs: Fs, bs: map<Mid, Bytes>, n: Node, depth: nat) returns (r: Option<seq<Mid>>)
    ensures n.kind != File ==> r == None
    ensures n.kind == File ==>
      match FlatBlocks(fs, bs, n.blocks, depth)
      case Some(refs) => r == Some(MidsOf(refs))
      case None => r == None
    decreases depth
  {
    if n.kind != File {
      return None;
    }
    var out, i := [], 0;
    ghost var refs: seq<Ref> := [];
    while i < |n.blocks|
      invariant 0 <= i <= |n.blocks|
      invariant FlatBlocks(fs, bs, n.blocks[..i], depth) == Some(refs) && out == MidsOf(refs)
    {
      var b := n.blocks[i];
      ghost var front := n.blocks[..i + 1];
      assert front[..i] == n.blocks[..i] && front[i] == b;
      var m := Mid(CODEC_MEMFS, b.hash);
      if b.size > 0 {
        MidsOfAppend(refs, [Ref(Mid(CODEC_RAW, b.hash), b.size)]);
        out, refs := out + [Mid(CODEC_RAW, b.hash)], refs + [Ref(Mid(CODEC_RAW, b.hash), b.size)];
      } else if depth == 0 || m !in bs {
        FlatBlocksNone(fs, bs, n.blocks, depth, i);
        return None;
      } else {
        var child := fs.decode(bs[m]);
        if child.Some? && child.value.kind == File && child.value.blocks != [] {
          var inner := FlattenFileBlocks(fs, bs, child.value, depth - 1);
          if inner.None? {
            FlatBlocksNone(fs, bs, n.blocks, depth, i);
            return None;
          }
          ghost var below := FlatBlock(fs, bs, b, depth).value;
          MidsOfAppend(refs, below);
          out, refs := out + inner.value, refs + below;
        } else {
          MidsOfAppend(refs, [Ref(m, 0)]);
          out, refs := out + [m], refs + [Ref(m, 0)];
        }
      }
      i := i + 1;
    }
    assert n.blocks[..i] == n.blocks;
    return Some(out);
  }

  lemma {:induction false} FlatBlocksNone(fs: Fs, bs: map<Mid, Bytes>, blocks: seq<BlockRef>, depth: nat, i: nat)
    requires i < |blocks| && FlatBlock(fs, bs, blocks[i], depth) == None
    ensures FlatBlocks(fs, bs, blocks, depth) == None
    decreases |blocks|
  {
    var n := |blocks| - 1;
    if i < n {
      FlatBlocksNone(fs, bs, blocks[..n], depth, i);
    }
  }

  // --------------------------------------------- flatten after AddFile

  /** What lies below a reference of the given level, as its parent will record it. */
  function Below(fs: Fs, bs: map<Mid, Bytes>, level: nat, depth: nat): Ref -> seq<Ref> {
    r =>
      match FlatBlock(fs, bs, Stored(level, r), depth)
      case Some(refs) => refs
      case None => []
  }

  /** Every reference can be flattened, and its size is the sum of the raw sizes below it. */
  ghost predicate Sized(fs: Fs, bs: map<Mid, Bytes>, level: nat, s: seq<Ref>, depth: nat) {
    forall i :: 0 <= i < |s| ==>
      && FlatBlock(fs, bs, Stored(level, s[i]), depth).Some?
      && SumRefs(FlatBlock(fs, bs, Stored(level, s[i]), depth).value) == s[i].size
  }

  lemma FlatSnoc(fs: Fs, bs: map<Mid, Bytes>, blocks: seq<BlockRef>, depth: nat, front: seq<Ref>, last: seq<Ref>)
    requires blocks != [] && FlatBlocks(fs, bs, blocks[..|blocks| - 1], depth) == Some(front)
    requires FlatBlock(fs, bs, blocks[|blocks| - 1], depth) == Some(last)
    ensures FlatBlocks(fs, bs, blocks, depth) == Some(front + last)
  {
    hide FlatBlock;
  }

  lemma StoredSnoc(level: nat, g: seq<Ref>)
    requires g != []
    ensures StoredAll(level, g)[..|g| - 1] == StoredAll(level, g[..|g| - 1])
    ensures StoredAll(level, g)[|g| - 1] == Stored(level, g[|g| - 1])
  {
  }

  lemma SizedLast(fs: Fs, bs: map<Mid, Bytes>, level: nat, g: seq<Ref>, depth: nat)
    requires Sized(fs, bs, level, g, depth) && g != []
    ensures Sized(fs, bs, level, g[..|g| - 1], depth)
    ensures FlatBlock(fs, bs, Stored(level, g[|g| - 1]), depth) == Some(Below(fs, bs, level, depth)(g[|g| - 1]))
    ensures SumRefs(Below(fs, bs, level, depth)(g[|g| - 1])) == g[|g| - 1].size
  {
    hide FlatBlock;
  }

  lemma SumSnoc(g: seq<Ref>)
    requires g != []
    ensures SumRefs(g) == SumRefs(g[..|g| - 1]) + g[|g| - 1].size
  {
    var last := g[|g| - 1];
    assert g == g[..|g| - 1] + [last];
    SumRefsAppend(g[..|g| - 1], [last]);
    assert SumRefs([last]) == last.size + SumRefs([]);
  }

  lemma FlatNothing(fs: Fs, bs: map<Mid, Bytes>, level: nat, depth: nat, f: Ref -> seq<Ref>)
    ensures FlatBlocks(fs, bs, StoredAll(level, []), depth) == Some(MapConcat(f, []))
    ensures SumRefs(MapConcat(f, [])) == SumRefs([])
  {
  }

  lemma {:induction false} FlatGroup(fs: Fs, bs: map<Mid, Bytes>, level: nat, g: seq<Ref>, depth: nat)
    requires Sized(fs, bs, level, g, depth)
    ensures FlatBlocks(fs, bs, StoredAll(level, g), depth) == Some(MapConcat(Below(fs, bs, level, depth), g))
    ensures SumRefs(MapConcat(Below(fs, bs, level, depth), g)) == SumRefs(g)
  {
    hide FlatBlock, FlatBlocks, MapConcat, SumRefs, StoredAll, Stored, Sized, Below;
    var f := Below(fs, bs, level, depth);
    if g == [] {
      FlatNothing(fs, bs, level, depth, f);
    } else {
      var n := |g| - 1;
      SizedLast(fs, bs, level, g, depth);
      FlatGroup(fs, bs, level, g[..n], depth);
      StoredSnoc(level, g);
      FlatSnoc(fs, bs, StoredAll(level, g), depth, MapConcat(f, g[..n]), f(g[n]));
      MapConcatSnoc(f, g);
      SumSnoc(g);
      SumRefsAppend(MapConcat(f, g[..n]), f(g[n]));
    }
  }

  lemma FlatNode(fs: Fs, bs: map<Mid, Bytes>, level: nat, g: seq<Ref>, depth: nat)
    requires fs.Sound() && g != [] && Fits(g) && Sized(fs, bs, level, g, depth)
    requires fs.NodeBlock(GroupNode(level, g)).mid in bs
    requires bs[fs.NodeBlock(GroupNode(level, g)).mid] == fs.NodeBlock(GroupNode(level, g)).data
    ensures
      var parent := Ref(fs.NodeBlock(GroupNode(level, g)).mid, SumRefs(g));
      && FlatBlock(fs, bs, Stored(level + 1, parent), depth + 1) == Some(MapConcat(Below(fs, bs, level, depth), g))
      && SumRefs(MapConcat(Below(fs, bs, level, depth), g)) == parent.size
  {
    FlatGroup(fs, bs, level, g, depth);
    GroupRepresentable(level, g);
    assert fs.decode(bs[fs.NodeBlock(GroupNode(level, g)).mid]) == Some(GroupNode(level, g));
  }

  lemma SizedGroup(fs: Fs, bs: map<Mid, Bytes>, level: nat, s: seq<Ref>, depth: nat, k: nat)
    requires Sized(fs, bs, level, s, depth) && k < Groups(|s|)
    ensures Sized(fs, bs, level, Group(s, k), depth)
  {
    hide FlatBlock;
    forall i | 0 <= i < |Group(s, k)| ensures Group(s, k)[i] == s[k * FANOUT + i] { }
  }

  /** The parent of one group flattens to what lies below the group, and records its size. */
  lemma FlatParent(fs: Fs, bs: map<Mid, Bytes>, level: nat, s: seq<Ref>, depth: nat, k: nat)
    requires fs.Sound() && Fits(s) && Sized(fs, bs, level, s, depth) && k < Groups(|s|)
    requires Stores(bs, LevelBlocks(FsTree(fs), level, s, Groups(|s|)))
    ensures
      var p, below := FsTree(fs).parent(level, Group(s, k)), MapConcat(Below(fs, bs, level, depth), Group(s, k));
      && FlatBlock(fs, bs, Stored(level + 1, p), depth + 1) == Some(below) && SumRefs(below) == p.size
      && Below(fs, bs, level + 1, depth + 1)(p) == below
  {
    hide FlatBlock, GroupNode, MapConcat, Fs.Sound, Sized, SumRefs, Fits, Group;
    var g := Group(s, k);
    assert FsTree(fs).block(level, g) in LevelBlocks(FsTree(fs), level, s, Groups(|s|));
    SizedGroup(fs, bs, level, s, depth, k);
    FsTreeNode(fs, level, g);
    GroupFits(s, k);
    FlatNode(fs, bs, level, g, depth);
  }

  /** One level up: same raw blocks in the same order, and sizes still add up. */
  lemma FlatLevel(fs: Fs, bs: map<Mid, Bytes>, level: nat, s: seq<Ref>, depth: nat)
    requires fs.Sound() && Fits(s) && Sized(fs, bs, level, s, depth)
    requires Stores(bs, LevelBlocks(FsTree(fs), level, s, Groups(|s|)))
    ensures Sized(fs, bs, level + 1, AllParents(FsTree(fs), level, s), depth + 1)
    ensures MapConcat(Below(fs, bs, level + 1, depth + 1), AllParents(FsTree(fs), level, s))
         == MapConcat(Below(fs, bs, level, depth), s)
  {
    hide FlatBlock, FsTree, MapConcat, Fs.Sound, SumRefs, Fits, Group, LevelBlocks, Below;
    var t := FsTree(fs);
    forall k | 0 <= k < Groups(|s|)
      ensures FlatBlock(fs, bs, Stored(level + 1, t.parent(level, Group(s, k))), depth + 1).Some?
      ensures SumRefs(FlatBlock(fs, bs, Stored(level + 1, t.parent(level, Group(s, k))), depth + 1).value)
           == t.parent(level, Group(s, k)).size
      ensures Below(fs, bs, level + 1, depth + 1)(t.parent(level, Group(s, k)))
           == MapConcat(Below(fs, bs, level, depth), Group(s, k))
    {
      FlatParent(fs, bs, level, s, depth, k);
    }
    Regroup(t, level, s, Below(fs, bs, level, depth), Below(fs, bs, level + 1, depth + 1));
  }

  function TopHeight(n: nat): nat { if n < FANOUT then 0 else 1 + TopHeight(Groups(n)) }

  lemma {:induction false} FlatTop(fs: Fs, bs: map<Mid, Bytes>, level: nat, s: seq<Ref>, depth: nat)
    requires fs.Sound() && Fits(s) && Sized(fs, bs, level, s, depth)
    requires Stores(bs, TopBlocks(fs, level, s))
    ensures
      var top := TopOf(fs, level, s);
      FlatBlocks(fs, bs, StoredAll(top.level, top.refs), depth + TopHeight(|s|))
        == Some(MapConcat(Below(fs, bs, level, depth), s))
    decreases |s|
  {
    hide FlatBlock, FlatBlocks, FsTree, LevelBlocks, MapConcat, Fs.Sound;
    if |s| < FANOUT {
      FlatGroup(fs, bs, level, s, depth);
    } else {
      var t := FsTree(fs);
      assert Stores(bs, LevelBlocks(t, level, s, Groups(|s|)));
      FlatLevel(fs, bs, level, s, depth);
      ParentsSum(fs, level, s);
      FlatTop(fs, bs, level + 1, AllParents(t, level, s), depth + 1);
    }
  }

  lemma {:induction false} LeavesFlat(fs: Fs, bs: map<Mid, Bytes>, chunks: seq<Bytes>, depth: nat)
    requires forall i :: 0 <= i < |chunks| ==> chunks[i] != []
    ensures Sized(fs, bs, 0, LeafRefs(fs.env, chunks), depth)
    ensures MapConcat(Below(fs, bs, 0, depth), LeafRefs(fs.env, chunks)) == LeafRefs(fs.env, chunks)
  {
    var leaves := LeafRefs(fs.env, chunks);
    forall i | 0 <= i < |chunks|
      ensures FlatBlock(fs, bs, Stored(0, leaves[i]), depth) == Some([leaves[i]]) && SumRefs([leaves[i]]) == leaves[i].size
    {
      assert SumRefs([leaves[i]]) == leaves[i].size + SumRefs([leaves[i]][1..]);
    }
    if chunks != [] {
      LeavesFlat(fs, bs, chunks[1..], depth);
      assert LeafRefs(fs.env, chunks[1..]) == leaves[1..];
    }
  }

  /** Flattening the FILE tree AddFile builds over non-empty chunks returns exactly the chunk MIDs in order, and the
      root's FileSize is their total; at every recursion bound from the height of the tree on. */
  lemma FlattenInvertsAddFile(fs: Fs, bs: map<Mid, Bytes>, meta: Meta, maxBlk: nat, chunks: seq<Bytes>, depth: nat)
    requires fs.Sound() && |Flatten(chunks)| < TWO64
    requires forall i :: 0 <= i < |chunks| ==> chunks[i] != []
    requires Stores(bs, TopBlocks(fs, 0, LeafRefs(fs.env, chunks)))
    requires depth >= TopHeight(|chunks|)
    ensures
      var root := FileRoot(fs, meta, maxBlk, chunks);
      && FlatBlocks(fs, bs, root.blocks, depth) == Some(LeafRefs(fs.env, chunks))
      && root.fileSize == |Flatten(chunks)|
  {
    hide FlatBlock, FlatBlocks, TopBlocks, MapConcat, LeafRefs;
    var d := depth - TopHeight(|chunks|);
    TotalSize(fs.env, chunks);
    LeavesFlat(fs, bs, chunks, d);
    FlatTop(fs, bs, 0, LeafRefs(fs.env, chunks), d);
  }

  lemma {:induction false} TotalSize(env: Env, chunks: seq<Bytes>)
    ensures SumRefs(LeafRefs(env, chunks)) == |Flatten(chunks)|
  {
    if chunks != [] {
      TotalSize(env, chunks[1..]);
      assert LeafRefs(env, chunks)[1..] == LeafRefs(env, chunks[1..]);
    }
  }

  /** Every field of the root that AddFile writes. */
  lemma FileRootFields(fs: Fs, meta: Meta, maxBlk: nat, chunks: seq<Bytes>)
    ensures
      var n := FileRoot(fs, meta, maxBlk, chunks);
      && n.kind == File && n.entries == [] && n.fileSize == |Flatten(chunks)|
      && n.mode == meta.mode && n.mtime == (if meta.mtime > 0 then meta.mtime else 0) && n.mime == meta.mime
      && n.data == (if |chunks| == 1 && 0 < |chunks[0]| <= maxBlk then chunks[0] else [])
      && |n.blocks| < 174 && (n.blocks == [] <==> chunks == [])
      && (|chunks| < 174 ==>
            |n.blocks| == |chunks|
            && forall i :: 0 <= i < |chunks| ==> n.blocks[i] == BlockRef(fs.env.digest(chunks[i]), |chunks[i]|))
  {
    hide SumRefs, Flatten, FsTree;
    TotalSize(fs.env, chunks);
    TopIsShort(fs, 0, LeafRefs(fs.env, chunks));
  }

  lemma {:induction false} TopIsShort(fs: Fs, level: nat, s: seq<Ref>)
    ensures |TopOf(fs, level, s).refs| < FANOUT && (TopOf(fs, level, s).refs == [] <==> s == [])
    decreases |s|
  {
    hide FsTree;
    if |s| >= FANOUT {
      TopIsShort(fs, level + 1, AllParents(FsTree(fs), level, s));
    }
  }

  /** The first size that needs an intermediate node: 174 chunks go below one, whose size field in the root is 0. */
  lemma FirstIntermediate(fs: Fs, meta: Meta, maxBlk: nat, chunks: seq<Bytes>)
    requires |chunks| == 174
    ensures
      var refs := seq(174, i requires 0 <= i < 174 => BlockRef(fs.env.digest(chunks[i]), |chunks[i]|));
      var below := Node(File, [], |Flatten(chunks)|, refs, [], 0, 0, "");
      FileRoot(fs, meta, maxBlk, chunks).blocks == [BlockRef(fs.env.digest(fs.encode(below)), 0)]
  {
    hide SumRefs, Flatten;
    var leaves := LeafRefs(fs.env, chunks);
    var refs := seq(174, i requires 0 <= i < 174 => BlockRef(fs.env.digest(chunks[i]), |chunks[i]|));
    TotalSize(fs.env, chunks);
    assert Group(leaves, 0) == leaves;
    FsTreeNode(fs, 0, leaves);
    assert StoredAll(0, leaves) == refs;
    var top := AllParents(FsTree(fs), 0, leaves);
    assert |top| == 1 && top[0] == FsTree(fs).parent(0, leaves);
    assert TopOf(fs, 0, leaves) == TopOf(fs, 1, top) == Top(1, top);
  }

  lemma GroupRecordsSum(fs: Fs, bs: map<Mid, Bytes>, level: nat, s: seq<Ref>, depth: nat, b: Block)
      returns (n: Node, below: seq<Ref>)
    requires Sized(fs, bs, level, s, depth)
    requires b in LevelBlocks(FsTree(fs), level, s, Groups(|s|))
    ensures b == fs.NodeBlock(n) && n.kind == File
    ensures FlatBlocks(fs, bs, n.blocks, depth) == Some(below) && n.fileSize == SumRefs(below)
  {
    hide FlatBlock, FlatBlocks, MapConcat;
    var t := FsTree(fs);
    var k :| 0 <= k < Groups(|s|) && b == t.block(level, Group(s, k));
    var g := Group(s, k);
    assert Sized(fs, bs, level, g, depth) by {
      forall i | 0 <= i < |g| ensures g[i] == s[k * FANOUT + i] { }
    }
    FsTreeNode(fs, level, g);
    FlatGroup(fs, bs, level, g, depth);
    n, below := GroupNode(level, g), MapConcat(Below(fs, bs, level, depth), g);
  }

  /** Every intermediate node the build writes records the sum of the raw sizes below it. */
  lemma {:induction false} IntermediateSizes(fs: Fs, bs: map<Mid, Bytes>, level: nat, s: seq<Ref>, depth: nat, b: Block)
      returns (n: Node, below: seq<Ref>, bound: nat)
    requires fs.Sound() && Fits(s) && Sized(fs, bs, level, s, depth)
    requires Stores(bs, TopBlocks(fs, level, s)) && b in TopBlocks(fs, level, s)
    ensures b == fs.NodeBlock(n) && n.kind == File
    ensures FlatBlocks(fs, bs, n.blocks, bound) == Some(below) && n.fileSize == SumRefs(below)
    decreases |s|
  {
    hide FlatBlock, FlatBlocks, MapConcat, LevelBlocks, FsTree, AllParents, Sized, Fs.Sound;
    var t := FsTree(fs);
    var here := LevelBlocks(t, level, s, Groups(|s|));
    assert Stores(bs, here);
    if b in here {
      n, below := GroupRecordsSum(fs, bs, level, s, depth, b);
      bound := depth;
    } else {
      FlatLevel(fs, bs, level, s, depth);
      ParentsSum(fs, level, s);
      n, below, bound := IntermediateSizes(fs, bs, level + 1, AllParents(t, level, s), depth + 1, b);
    }
  }
}
