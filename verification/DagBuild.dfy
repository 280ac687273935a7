/** core/dag/dag.go: the streaming Merkle DAG builder. */
module DagBuild {
  import opened Common
  import opened Carry
  import opened Wire

  /** What the chunker's Next yields before io.EOF: a block with its MID, or a read error. */
  datatype Chunk = Chunk(mid: Mid, data: Bytes) | Broken

  datatype BuildError = ReadChunk | EmptyChunk | ZeroMid | StoreLeaf | EmptyGroup | EmptyInput

  function Texts(env: Env, children: seq<Mid>): (r: seq<Bytes>)
    ensures |r| == |children|
  {
    seq(|children|, i requires 0 <= i < |children| => env.text(children[i]))
  }

  /** On-disk form of an internal node. */
  function NodeData(env: Env, children: seq<Mid>): Bytes { MarshalLinks(Texts(env, children)) }

  function NodeBlock(env: Env, children: seq<Mid>): Block {
    Block(env.FromBytes(NodeData(env, children)), NodeData(env, children))
  }

  /** The DAG as an instance of the carry structure; the level plays no part. */
  function DagTree(env: Env): Tree<Mid, Block> {
    Tree((level, children) => NodeBlock(env, children).mid, (level, children) => NodeBlock(env, children))
  }

  lemma DagTreeNode(env: Env, level: nat, children: seq<Mid>)
    ensures DagTree(env).parent(level, children) == NodeBlock(env, children).mid
    ensures DagTree(env).block(level, children) == NodeBlock(env, children)
  {
  }

  /** The first size that needs two levels: 175 entries make a node of 174 and one of the last entry alone, under one root. */
  lemma FirstOverflow(env: Env, leaves: seq<Mid>)
    requires |leaves| == 175
    ensures
      BatchRoot(DagTree(env), 0, leaves)
        == NodeBlock(env, [NodeBlock(env, leaves[..174]).mid, NodeBlock(env, leaves[174..]).mid]).mid
  {
    hide NodeBlock, BatchRoot;
    var t := DagTree(env);
    var level := AllParents(t, 0, leaves);
    assert Group(leaves, 0) == leaves[..174] && Group(leaves, 1) == leaves[174..];
    assert level == [NodeBlock(env, leaves[..174]).mid, NodeBlock(env, leaves[174..]).mid];
    assert Group(level, 0) == level;
    var top := AllParents(t, 1, level);
    assert top == [NodeBlock(env, level).mid];
    BatchUp(t, 0, leaves);
    BatchUp(t, 1, level);
    BatchUp(t, 2, top);
  }

  lemma BatchUp(t: Tree<Mid, Block>, level: nat, s: seq<Mid>)
    requires s != []
    ensures BatchRoot(t, level, s) == if |s| == 1 then s[0] else BatchRoot(t, level + 1, AllParents(t, level, s))
  {
  }

  /** A Blockstore that, like every implementation in core/store, re-hashes on write.
      `puts` records every block accepted so far. */
  class Blockstore {
    const env: Env
    var blocks: map<Mid, Bytes>
    ghost var puts: set<Block>

    ghost predicate Valid()
      reads this
    {
      && Verified(env, blocks)
      && (forall b :: b in puts ==> b.mid in blocks && env.digest(b.data) == b.mid.hash)
    }

    constructor (env: Env)
      ensures Valid() && this.env == env && blocks == map[] && puts == {}
    {
      this.env := env;
      blocks := map[];
      puts := {};
    }

    method Put(m: Mid, data: Bytes) returns (ok: bool)
      requires Valid()
      modifies this
      ensures Valid()
      ensures ok <==> env.digest(data) == m.hash
      ensures blocks == if ok then old(blocks)[m := data] else old(blocks)
      ensures puts == if ok then old(puts) + {Block(m, data)} else old(puts)
    {
      ok := env.digest(data) == m.hash;
      if ok {
        blocks := blocks[m := data];
        puts := puts + {Block(m, data)};
      }
    }
  }

  class LevelStack {
    const bs: Blockstore
    var levels: seq<seq<Mid>>

    constructor (bs: Blockstore)
      ensures this.bs == bs && levels == []
    {
      this.bs := bs;
      levels := [];
    }

    /** Writes the internal node over `children`. */
    method Collapse(children: seq<Mid>) returns (r: Result<Mid, BuildError>)
      requires bs.Valid()
      modifies bs
      ensures bs.Valid()
      ensures children == [] ==> r == Err(EmptyGroup) && bs.puts == old(bs.puts)
      ensures children != [] ==>
        && r == Ok(NodeBlock(bs.env, children).mid)
        && bs.puts == old(bs.puts) + {NodeBlock(bs.env, children)}
    {
      if children == [] {
        return Err(EmptyGroup);
      }
      var raw := NodeData(bs.env, children);
      var m := bs.env.FromBytes(raw);
      var ok := bs.Put(m, raw);
      return Ok(m);
    }

    /** Streaming one more entry into `level`: a stack that holds `s` from `level` on afterwards holds `s + [m]`,
        and exactly the blocks this completes were written. */
    method Push(level: nat, m: Mid, ghost s: seq<Mid>, ghost base: set<Block>) returns (r: Result<(), BuildError>)
      requires bs.Valid()
      requires Streamed(DagTree(bs.env), levels, bs.puts, level, s, base)
      modifies this, bs
      ensures bs.Valid() && r.Ok?
      ensures Streamed(DagTree(bs.env), levels, bs.puts, level, s + [m], base)
      ensures |levels| > level && |levels| >= |old(levels)|
      ensures forall j :: 0 <= j < level && j < |old(levels)| ==> levels[j] == old(levels)[j]
      ensures old(|levels| <= level || Lean(levels)) ==> Lean(levels)
      decreases if level < |levels| then |levels| - level else 0
    {
      hide Streamed, Tail, FullParents, CarryBase, NodeBlock, DagTree;
      ghost var t := DagTree(bs.env);
      while |levels| <= level
        invariant |levels| >= |old(levels)|
        invariant Streamed(t, levels, bs.puts, level, s, base)
        invariant forall j :: 0 <= j < |old(levels)| ==> levels[j] == old(levels)[j]
        invariant forall j :: |old(levels)| <= j < |levels| ==> levels[j] == []
        invariant |levels| > |old(levels)| ==> |levels| <= level + 1
        invariant bs.Valid()
      {
        StreamedGrow(t, levels, bs.puts, level, s, base);
        levels := levels + [[]];
      }
      StreamedAppend(t, levels, bs.puts, level, s, base, m);
      if |levels[level]| + 1 < FANOUT {
        levels := levels[level := levels[level] + [m]];
        return Ok(());
      }
      StreamedCarry(t, levels, bs.puts, level, s, base, m);
      DagTreeNode(bs.env, level, levels[level] + [m]);
      var parent := Collapse(levels[level] + [m]);
      levels := levels[level := []];
      r := Push(level + 1, parent.value, FullParents(t, level, s), CarryBase(t, level, s + [m], base));
      StreamedCarried(t, levels, bs.puts, level, s, base, m);
    }

    /** Whether every buffer above `i` is empty. */
    method Topmost(i: nat) returns (top: bool)
      ensures top <==> EmptyFrom(levels, i + 1)
    {
      var j := i + 1;
      while j < |levels|
        invariant i + 1 <= j
        invariant forall k :: i + 1 <= k < j && k < |levels| ==> levels[k] == []
      {
        if |levels[j]| > 0 {
          return false;
        }
        j := j + 1;
      }
      return true;
    }

    /** Flushing the partial buffers bottom-up yields the batch root and completes the batch set of blocks. */
    method Finalize(ghost leaves: seq<Mid>, ghost base: set<Block>) returns (r: Result<Mid, BuildError>)
      requires bs.Valid()
      requires Streamed(DagTree(bs.env), levels, bs.puts, 0, leaves, base)
      modifies this, bs
      ensures bs.Valid()
      ensures leaves == [] ==> r == Err(EmptyInput)
      ensures leaves != [] ==>
        && r == Ok(BatchRoot(DagTree(bs.env), 0, leaves))
        && bs.puts == base + BatchBlocks(DagTree(bs.env), 0, leaves)
    {
      hide Streamed, Reduced, DagTree, NodeBlock, FullParents, AllParents, LevelBlocks, EmptyFrom, BatchRoot, BatchBlocks;
      ghost var t := DagTree(bs.env);
      ghost var s, done := leaves, base;
      var i := 0;
      if leaves != [] {
        ReducedStart(t, leaves, base);
      }
      while i < |levels|
        invariant bs.Valid()
        invariant Streamed(t, levels, bs.puts, i, s, done)
        invariant if leaves == [] then s == [] else Reduced(t, i, s, done, leaves, base) && s != []
        decreases |s|, |levels| - i
      {
        if |levels[i]| == 0 {
          if leaves == [] {
            StreamedEmpty(t, levels, bs.puts, i, done);
          } else {
            StreamedSkip(t, levels, bs.puts, i, s, done);
            ReducedStep(t, i, s, done, leaves, base);
            done := done + LevelBlocks(t, i, s, Groups(|s|));
            s := AllParents(t, i, s);
          }
          i := i + 1;
          continue;
        }
        if leaves == [] {
          StreamedEmpty(t, levels, bs.puts, i, done);
        }
        StreamedTop(t, levels, bs.puts, i, s, done);
        var top := Topmost(i);
        if |levels[i]| == 1 && top {
          ReducedRoot(t, i, s, done, leaves, base);
          return Ok(levels[i][0]);
        }
        StreamedFlush(t, levels, bs.puts, i, s, done);
        DagTreeNode(bs.env, i, levels[i]);
        var parent := Collapse(levels[i]);
        levels := levels[i := []];
        ReducedStep(t, i, s, done, leaves, base);
        done := done + LevelBlocks(t, i, s, Groups(|s|));
        var pushed := Push(i + 1, parent.value, FullParents(t, i, s), done);
        s := AllParents(t, i, s);
        i := i + 1;
      }
      StreamedNothing(t, levels, bs.puts, i, s, done);
      return Err(EmptyInput);
    }
  }

  /** Why Build rejects a chunk, if it does. */
  function Fault(env: Env, c: Chunk): Option<BuildError> {
    match c
    case Broken => Some(ReadChunk)
    case Chunk(m, data) =>
      if data == [] then Some(EmptyChunk)
      else if m.IsZero() then Some(ZeroMid)
      else if env.digest(data) != m.hash then Some(StoreLeaf)
      else None
  }

  ghost predicate AllGood(env: Env, input: seq<Chunk>) {
    forall i :: 0 <= i < |input| ==> Fault(env, input[i]) == None
  }

  function ChunkBlock(c: Chunk): Block {
    match c
    case Chunk(m, data) => Block(m, data)
    case Broken => Block(Mid(0, []), [])
  }

  function Leaves(input: seq<Chunk>): (r: seq<Mid>)
    ensures |r| == |input|
  {
    seq(|input|, i requires 0 <= i < |input| => ChunkBlock(input[i]).mid)
  }

  ghost function LeafBlocks(input: seq<Chunk>): set<Block> {
    set i | 0 <= i < |input| :: ChunkBlock(input[i])
  }

  lemma NoChunks(env: Env)
    ensures AllGood(env, []) && Leaves([]) == [] && LeafBlocks([]) == {}
  {
  }

  lemma NotAllGood(env: Env, input: seq<Chunk>, i: nat)
    requires i < |input| && Fault(env, input[i]).Some?
    ensures !AllGood(env, input)
  {
  }

  lemma PrefixSnoc(env: Env, input: seq<Chunk>, i: nat)
    requires i < |input| && AllGood(env, input[..i]) && Fault(env, input[i]) == None
    ensures AllGood(env, input[..i + 1])
    ensures Leaves(input[..i + 1]) == Leaves(input[..i]) + [input[i].mid]
    ensures LeafBlocks(input[..i + 1]) == LeafBlocks(input[..i]) + {ChunkBlock(input[i])}
  {
    var p, p' := input[..i], input[..i + 1];
    assert p' == p + [input[i]];
    assert Leaves(p') == Leaves(p) + [input[i].mid];
    forall k | 0 <= k < i ensures ChunkBlock(p'[k]) == ChunkBlock(p[k]) { }
    assert ChunkBlock(p'[i]) == ChunkBlock(input[i]);
    assert LeafBlocks(p') == LeafBlocks(p) + {ChunkBlock(input[i])};
  }

  /** Build over any chunker run: the first faulty chunk decides the error, an empty run is an error, and otherwise
      the root and the set of written blocks are those of the batch reduction over the chunk MIDs. */
  method Build(bs: Blockstore, input: seq<Chunk>) returns (r: Result<Mid, BuildError>)
    requires bs.Valid()
    modifies bs
    ensures bs.Valid()
    ensures r.Ok? <==> input != [] && AllGood(bs.env, input)
    ensures r.Ok? ==>
      && r.value == BatchRoot(DagTree(bs.env), 0, Leaves(input))
      && bs.puts == old(bs.puts) + LeafBlocks(input) + BatchBlocks(DagTree(bs.env), 0, Leaves(input))
    ensures r.Err? && input != [] ==>
      exists i :: 0 <= i < |input| && AllGood(bs.env, input[..i]) && Fault(bs.env, input[i]) == Some(r.error)
    ensures input == [] ==> r == Err(EmptyInput)
  {
    hide Streamed, DagTree, BatchRoot, BatchBlocks, Leaves, LeafBlocks, AllGood, Small;
    assert AllGood(bs.env, []) && Leaves([]) == [] && LeafBlocks([]) == {} by { NoChunks(bs.env); }
    ghost var t := DagTree(bs.env);
    var stack := new LevelStack(bs);
    assert Streamed(t, stack.levels, bs.puts, 0, [], bs.puts) by { StreamedStart(t, bs.puts); }
    var sawLeaf := false;
    var i := 0;
    ghost var base := bs.puts;
    assert Small(stack.levels, 0) by { MemoryBound(t, stack.levels, bs.puts, [], base); }
    while i < |input|
      invariant 0 <= i <= |input| && fresh(stack) && stack.bs == bs
      invariant bs.Valid() && AllGood(bs.env, input[..i])
      invariant base == old(bs.puts) + LeafBlocks(input[..i])
      invariant Streamed(t, stack.levels, bs.puts, 0, Leaves(input[..i]), base)
      invariant sawLeaf <==> i > 0
      invariant Lean(stack.levels) && Small(stack.levels, i)
    {
      if Fault(bs.env, input[i]).Some? {
        NotAllGood(bs.env, input, i);
      } else {
        PrefixSnoc(bs.env, input, i);
      }
      if input[i].Broken? {
        return Err(ReadChunk);
      }
      if input[i].data == [] {
        return Err(EmptyChunk);
      }
      if input[i].mid.IsZero() {
        return Err(ZeroMid);
      }
      ghost var leaf := ChunkBlock(input[i]);
      ghost var before := bs.puts;
      var ok := bs.Put(input[i].mid, input[i].data);
      if !ok {
        return Err(StoreLeaf);
      }
      StreamedBase(t, stack.levels, before, 0, Leaves(input[..i]), base, leaf);
      base := base + {leaf};
      var pushed := stack.Push(0, input[i].mid, Leaves(input[..i]), base);
      sawLeaf := true;
      i := i + 1;
      MemoryBound(t, stack.levels, bs.puts, Leaves(input[..i]), base);
    }
    assert input[..i] == input;
    if !sawLeaf {
      return Err(EmptyInput);
    }
    r := stack.Finalize(Leaves(input), base);
  }
}
