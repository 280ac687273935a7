/** core/memfs/builder.go, the consumer of AddFile: chunk results arrive in any order and are pushed in chunk order. */
module MemfsParallel {
  import opened Common
  import opened Carry
  import opened DagBuild
  import opened MemfsBuild
  import DagParallel

  /** A message on the result channel: a stored chunk, or a failure of the reader or of a batch write. */
  datatype Arrival = Stored(idx: nat) | Failure

  /** The raw blocks were written by the workers; the stack holds the first `i` leaves. */
  ghost predicate Pushed(stack: MemfsStack, chunks: seq<Bytes>, i: nat, base: set<Block>)
    reads stack, stack.bs
  {
    && i <= |chunks| && stack.Holding(LeafRefs(stack.fs.env, chunks[..i]), base)
    && (i == 1 ==> stack.singleData == chunks[0])
  }

  lemma PushedStart(fs: Fs, chunks: seq<Bytes>, puts: set<Block>)
    ensures LeafRefs(fs.env, chunks[..0]) == [] && Streamed(FsTree(fs), [], puts, 0, [], puts)
  {
    StreamedStart(FsTree(fs), puts);
  }

  /** For every order of arrival: a failure anywhere makes the whole call fail; otherwise, once every chunk has arrived,
      the leaves were pushed in chunk order, nothing is left waiting, and the root is the one AddFile specifies. */
  method AddFileReordered(fs: Fs, bs: Blockstore, meta: Meta, maxBlk: nat, chunks: seq<Bytes>, arrivals: seq<Arrival>)
      returns (r: Option<Mid>)
    requires bs.Valid() && bs.env == fs.env
    requires forall i :: 0 <= i < |arrivals| && arrivals[i].Stored? ==> arrivals[i].idx < |chunks|
    requires forall i, j :: 0 <= i < j < |arrivals| && arrivals[i].Stored? && arrivals[j].Stored? ==> arrivals[i] != arrivals[j]
    requires Failure in arrivals || forall i: nat :: i < |chunks| ==> Stored(i) in arrivals
    modifies bs
    ensures bs.Valid()
    ensures r.None? <==> Failure in arrivals
    ensures r.Some? ==>
      && r.value == fs.NodeBlock(FileRoot(fs, meta, maxBlk, chunks)).mid
      && bs.puts == old(bs.puts) + TopBlocks(fs, 0, LeafRefs(fs.env, chunks)) + {fs.NodeBlock(FileRoot(fs, meta, maxBlk, chunks))}
  {
    hide Streamed, FsTree, TopOf, TopBlocks, LeafRefs, RootNode;
    EmptyFileRoot(fs, meta, maxBlk);
    PushedStart(fs, chunks, bs.puts);
    var stack := new MemfsStack(fs, bs, meta, maxBlk);
    var order := new DagParallel.Reorder();
    ghost var base, seen: seq<nat> := bs.puts, [];
    var a := 0;
    while a < |arrivals|
      invariant 0 <= a <= |arrivals| && fresh(stack) && fresh(order) && Failure !in arrivals[..a]
      invariant stack.fs == fs && stack.bs == bs && stack.meta == meta && stack.maxBlk == maxBlk && stack.Valid()
      invariant forall i: nat :: i in seen <==> Stored(i) in arrivals[..a]
      invariant order.Valid(seen) && order.nextIdx <= |chunks| && Pushed(stack, chunks, order.nextIdx, base)
    {
      assert arrivals[..a + 1] == arrivals[..a] + [arrivals[a]];
      if arrivals[a].Failure? {
        return None;
      }
      Accept(stack, order, chunks, arrivals[a].idx, seen, base, arrivals, a);
      seen := seen + [arrivals[a].idx];
      a := a + 1;
    }
    assert arrivals[..a] == arrivals;
    order.AllReleased(seen, |chunks|);
    assert chunks[..|chunks|] == chunks;
    ghost var root;
    var m;
    m, root := stack.Finalize(LeafRefs(fs.env, chunks), base);
    return Some(m);
  }

  method Accept(stack: MemfsStack, order: DagParallel.Reorder, chunks: seq<Bytes>, idx: nat, ghost seen: seq<nat>,
                ghost base: set<Block>, ghost arrivals: seq<Arrival>, ghost a: nat)
    requires stack.Valid() && order.Valid(seen) && order.nextIdx <= |chunks| && Pushed(stack, chunks, order.nextIdx, base)
    requires a < |arrivals| && arrivals[a] == Stored(idx)
    requires forall i :: 0 <= i < |arrivals| && arrivals[i].Stored? ==> arrivals[i].idx < |chunks|
    requires forall i, j :: 0 <= i < j < |arrivals| && arrivals[i].Stored? && arrivals[j].Stored? ==> arrivals[i] != arrivals[j]
    requires forall i: nat :: i in seen <==> Stored(i) in arrivals[..a]
    modifies stack, stack.bs, order
    ensures stack.Valid() && order.Valid(seen + [idx]) && order.nextIdx <= |chunks|
    ensures Pushed(stack, chunks, order.nextIdx, base)
  {
    hide Streamed, FsTree, LeafRefs;
    forall i | 0 <= i < a ensures arrivals[..a][i] != Stored(idx) {
      assert arrivals[..a][i] == arrivals[i];
    }
    assert Stored(idx) !in arrivals[..a];
    ghost var from := order.nextIdx;
    var released := order.Offer(idx, seen);
    InRange(order, seen + [idx], chunks, arrivals, a);
    var k := 0;
    while k < |released|
      invariant 0 <= k <= |released| && from + |released| == order.nextIdx <= |chunks|
      invariant stack.Valid() && order.Valid(seen + [idx]) && Pushed(stack, chunks, from + k, base)
    {
      var i := released[k];
      assert i == from + k;
      ChunkSnoc(stack.fs.env, chunks, i);
      stack.PushLeaf(stack.fs.env.FromBytes(chunks[i]), |chunks[i]|, chunks[i], LeafRefs(stack.fs.env, chunks[..i]), base);
      k := k + 1;
    }
  }

  lemma InRange(order: DagParallel.Reorder, seen: seq<nat>, chunks: seq<Bytes>, arrivals: seq<Arrival>, a: nat)
    requires order.Valid(seen) && a < |arrivals| && arrivals[a].Stored?
    requires forall i :: 0 <= i < |arrivals| && arrivals[i].Stored? ==> arrivals[i].idx < |chunks|
    requires forall i: nat :: i in seen ==> Stored(i) in arrivals[..a] || arrivals[a] == Stored(i)
    ensures order.nextIdx <= |chunks|
  {
    forall i: nat | i in seen ensures i < |chunks| {
      if arrivals[a] != Stored(i) {
        var j :| 0 <= j < a && arrivals[..a][j] == Stored(i);
        assert arrivals[j] == Stored(i);
      }
    }
    assert |chunks| < order.nextIdx ==> |chunks| in seen;
  }
}
