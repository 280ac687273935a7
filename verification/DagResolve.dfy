/** core/dag/resolve.go: reading a DAG back, from the store that built it or from one that is not trusted. */
module DagResolve {
  import opened Common
  import opened Carry
  import opened Wire
  import opened DagBuild

  datatype Status = Done | Missing(m: Mid) | Corrupt(m: Mid) | BadLink(link: Bytes) | TooDeep

  /** What the reader of the pipe sees: the bytes written, then a clean end or an error. */
  datatype Outcome = Outcome(out: Bytes, status: Status)

  /** The recursive walk. `depth` bounds the recursion, which the source leaves to the call stack:
      a cycle served by a rogue store ends in TooDeep whatever the bound. */
  function Stream(env: Env, bs: map<Mid, Bytes>, m: Mid, depth: nat): Outcome
    decreases depth, 0, 0
  {
    if depth == 0 then Outcome([], TooDeep)
    else if m !in bs then Outcome([], Missing(m))
    else if env.digest(bs[m]) != m.hash then Outcome([], Corrupt(m))
    else
      match IsInternalNode(bs[m])
      case None => Outcome(bs[m], Done)
      case Some(links) => StreamLinks(env, bs, links, depth - 1)
  }

  function StreamLinks(env: Env, bs: map<Mid, Bytes>, links: seq<Bytes>, depth: nat): Outcome
    decreases depth, 1, |links|
  {
    if links == [] then Outcome([], Done)
    else
      match env.parse(links[0])
      case None => Outcome([], BadLink(links[0]))
      case Some(child) =>
        var head := Stream(env, bs, child, depth);
        if head.status != Done then head
        else
          var rest := StreamLinks(env, bs, links[1..], depth);
          Outcome(head.out + rest.out, rest.status)
  }

  /** The pipe the walk writes into. */
  class Pipe {
    var written: Bytes

    constructor ()
      ensures written == []
    {
      written := [];
    }
  }

  /** The walk as the source runs it, writing leaf by leaf: whatever it wrote before it stopped, it appended exactly
      the bytes of the functional walk, and it stops for the same reason. */
  method Walk(env: Env, bs: map<Mid, Bytes>, m: Mid, depth: nat, pipe: Pipe) returns (status: Status)
    modifies pipe
    ensures pipe.written == old(pipe.written) + Stream(env, bs, m, depth).out
    ensures status == Stream(env, bs, m, depth).status
    decreases depth
  {
    hide IsInternalNode;
    if depth == 0 {
      return TooDeep;
    }
    if m !in bs {
      return Missing(m);
    }
    var data := bs[m];
    if env.digest(data) != m.hash {
      return Corrupt(m);
    }
    var node := IsInternalNode(data);
    if node.None? {
      pipe.written := pipe.written + data;
      return Done;
    }
    var links, i := node.value, 0;
    ghost var all := StreamLinks(env, bs, links, depth - 1);
    while i < |links|
      invariant 0 <= i <= |links|
      invariant pipe.written + StreamLinks(env, bs, links[i..], depth - 1).out == old(pipe.written) + all.out
      invariant StreamLinks(env, bs, links[i..], depth - 1).status == all.status
    {
      ghost var rest := links[i..];
      assert rest[0] == links[i] && rest[1..] == links[i + 1..];
      var child := env.parse(links[i]);
      if child.None? {
        return BadLink(links[i]);
      }
      status := Walk(env, bs, child.value, depth - 1, pipe);
      if status != Done {
        return;
      }
      i := i + 1;
    }
    return Done;
  }

  // ---------------------------------------------- an untrusted store

  /** Two stores, one of which resolves `m` completely: the other one, whatever it serves, yields a prefix of the
      same bytes, and all of them if its walk ends cleanly. */
  lemma {:induction false} NeverServesWrongBytes(env: Env, good: map<Mid, Bytes>, other: map<Mid, Bytes>,
                                                 m: Mid, depth: nat, otherDepth: nat)
    requires env.CollisionFree(good.Values + other.Values)
    requires Stream(env, good, m, depth).status == Done
    ensures Stream(env, other, m, otherDepth).out <= Stream(env, good, m, depth).out
    ensures Stream(env, other, m, otherDepth).status == Done ==>
              Stream(env, other, m, otherDepth).out == Stream(env, good, m, depth).out
    decreases depth, 0, 0
  {
    hide IsInternalNode;
    if otherDepth > 0 && m in other && env.digest(other[m]) == m.hash {
      assert good[m] in good.Values && other[m] in other.Values;
      assert other[m] == good[m];
      if IsInternalNode(good[m]).Some? {
        LinksNeverServeWrongBytes(env, good, other, IsInternalNode(good[m]).value, depth - 1, otherDepth - 1);
      }
    }
  }

  lemma {:induction false} LinksNeverServeWrongBytes(env: Env, good: map<Mid, Bytes>, other: map<Mid, Bytes>,
                                                     links: seq<Bytes>, depth: nat, otherDepth: nat)
    requires env.CollisionFree(good.Values + other.Values)
    requires StreamLinks(env, good, links, depth).status == Done
    ensures StreamLinks(env, other, links, otherDepth).out <= StreamLinks(env, good, links, depth).out
    ensures StreamLinks(env, other, links, otherDepth).status == Done ==>
              StreamLinks(env, other, links, otherDepth).out == StreamLinks(env, good, links, depth).out
    decreases depth, 1, |links|
  {
    hide Stream;
    if links != [] {
      var child := env.parse(links[0]).value;
      NeverServesWrongBytes(env, good, other, child, depth, otherDepth);
      LinksNeverServeWrongBytes(env, good, other, links[1..], depth, otherDepth);
      var g, o := Stream(env, good, child, depth), Stream(env, other, child, otherDepth);
      if o.status == Done {
        assert StreamLinks(env, other, links, otherDepth).out
            == o.out + StreamLinks(env, other, links[1..], otherDepth).out;
      }
    }
  }

  // ------------------------------------------------ Build then Resolve

  /** Every listed block is in the store, with its own bytes. */
  ghost predicate Stores(bs: map<Mid, Bytes>, blocks: set<Block>) {
    forall b :: b in blocks ==> b.mid in bs && bs[b.mid] == b.data
  }

  /** In a verified store, presence plus a collision-free hash is enough. */
  lemma VerifiedStores(env: Env, bs: map<Mid, Bytes>, blocks: set<Block>)
    requires Verified(env, bs)
    requires forall b :: b in blocks ==> b.mid in bs && env.digest(b.data) == b.mid.hash
    requires env.CollisionFree(bs.Values + (set b | b in blocks :: b.data))
    ensures Stores(bs, blocks)
  {
    forall b | b in blocks ensures bs[b.mid] == b.data {
      assert bs[b.mid] in bs.Values && env.digest(bs[b.mid]) == env.digest(b.data);
    }
  }

  /** The text form of a MID is short ASCII. */
  ghost predicate PlainText(env: Env) {
    forall m: Mid :: env.Proper(m) ==> ValidUtf8(env.text(m)) && |env.text(m)| < TWO63
  }

  function OutAt(env: Env, bs: map<Mid, Bytes>, depth: nat): Mid -> Bytes {
    m => Stream(env, bs, m, depth).out
  }

  ghost predicate AllDone(env: Env, bs: map<Mid, Bytes>, s: seq<Mid>, depth: nat) {
    forall i :: 0 <= i < |s| ==> env.Proper(s[i]) && Stream(env, bs, s[i], depth).status == Done
  }

  /** Walking the links of a group concatenates its children. */
  lemma {:induction false} LinksOfGroup(env: Env, bs: map<Mid, Bytes>, g: seq<Mid>, depth: nat)
    requires env.Sound() && AllDone(env, bs, g, depth)
    ensures StreamLinks(env, bs, Texts(env, g), depth) == Outcome(MapConcat(OutAt(env, bs, depth), g), Done)
  {
    hide Stream;
    if g != [] {
      assert Texts(env, g)[1..] == Texts(env, g[1..]);
      LinksOfGroup(env, bs, g[1..], depth);
      assert env.parse(Texts(env, g)[0]) == Some(g[0]);
    }
  }

  /** An internal node is recognised as such, with its own links. */
  lemma NodeRecognised(env: Env, g: seq<Mid>)
    requires PlainText(env) && g != [] && forall i :: 0 <= i < |g| ==> env.Proper(g[i])
    ensures IsInternalNode(NodeData(env, g)) == Some(Texts(env, g))
  {
    hide NextRecord, ValidUtf8, MarshalLinks;
    MergeLinks(Texts(env, g), DagNode([], [], []));
    assert [] + Texts(env, g) == Texts(env, g);
  }

  lemma StreamNode(env: Env, bs: map<Mid, Bytes>, g: seq<Mid>, depth: nat)
    requires env.Sound() && PlainText(env) && g != []
    requires AllDone(env, bs, g, depth)
    requires NodeBlock(env, g).mid in bs && bs[NodeBlock(env, g).mid] == NodeBlock(env, g).data
    ensures Stream(env, bs, NodeBlock(env, g).mid, depth + 1) == Outcome(MapConcat(OutAt(env, bs, depth), g), Done)
    ensures env.Proper(NodeBlock(env, g).mid)
  {
    hide IsInternalNode;
    NodeRecognised(env, g);
    LinksOfGroup(env, bs, g, depth);
  }

  /** One batch reduction: the parents resolve, one level deeper, to the same bytes. */
  lemma ResolveLevel(env: Env, bs: map<Mid, Bytes>, level: nat, s: seq<Mid>, depth: nat)
    requires env.Sound() && PlainText(env) && AllDone(env, bs, s, depth)
    requires Stores(bs, LevelBlocks(DagTree(env), level, s, Groups(|s|)))
    ensures AllDone(env, bs, AllParents(DagTree(env), level, s), depth + 1)
    ensures MapConcat(OutAt(env, bs, depth + 1), AllParents(DagTree(env), level, s)) == MapConcat(OutAt(env, bs, depth), s)
  {
    hide Stream, NodeBlock, MapConcat, Env.Sound;
    var t := DagTree(env);
    forall k | 0 <= k < Groups(|s|)
      ensures Stream(env, bs, t.parent(level, Group(s, k)), depth + 1)
           == Outcome(MapConcat(OutAt(env, bs, depth), Group(s, k)), Done)
      ensures env.Proper(t.parent(level, Group(s, k)))
    {
      var g := Group(s, k);
      assert t.block(level, g) in LevelBlocks(t, level, s, Groups(|s|));
      assert AllDone(env, bs, g, depth) by {
        forall i | 0 <= i < |g| ensures env.Proper(g[i]) && Stream(env, bs, g[i], depth).status == Done {
          assert g[i] == s[k * FANOUT + i];
        }
      }
      StreamNode(env, bs, g, depth);
    }
    Regroup(t, level, s, OutAt(env, bs, depth), OutAt(env, bs, depth + 1));
  }

  lemma {:induction false} ResolveBatch(env: Env, bs: map<Mid, Bytes>, level: nat, s: seq<Mid>, depth: nat)
    requires env.Sound() && PlainText(env) && s != [] && AllDone(env, bs, s, depth)
    requires Stores(bs, BatchBlocks(DagTree(env), level, s))
    ensures Stream(env, bs, BatchRoot(DagTree(env), level, s), depth + Height(|s|))
         == Outcome(MapConcat(OutAt(env, bs, depth), s), Done)
    decreases |s|
  {
    hide Stream, DagTree, LevelBlocks, Env.Sound;
    if |s| > 1 {
      var t := DagTree(env);
      assert Stores(bs, LevelBlocks(t, level, s, Groups(|s|)));
      ResolveLevel(env, bs, level, s, depth);
      ResolveBatch(env, bs, level + 1, AllParents(t, level, s), depth + 1);
    } else {
      assert s == [s[0]];
      assert OutAt(env, bs, depth)(s[0]) + [] == OutAt(env, bs, depth)(s[0]);
    }
  }

  function Payloads(input: seq<Chunk>): (r: seq<Bytes>)
    ensures |r| == |input|
  {
    seq(|input|, i requires 0 <= i < |input| => ChunkBlock(input[i]).data)
  }

  lemma {:induction false} LeavesResolve(env: Env, bs: map<Mid, Bytes>, input: seq<Chunk>, depth: nat)
    requires env.Sound() && AllGood(env, input) && Stores(bs, LeafBlocks(input)) && depth > 0
    requires forall i :: 0 <= i < |input| ==> IsInternalNode(Payloads(input)[i]) == None
    ensures AllDone(env, bs, Leaves(input), depth)
    ensures MapConcat(OutAt(env, bs, depth), Leaves(input)) == Flatten(Payloads(input))
  {
    hide IsInternalNode, Env.Sound;
    forall i | 0 <= i < |input|
      ensures Stream(env, bs, Leaves(input)[i], depth) == Outcome(Payloads(input)[i], Done) && env.Proper(Leaves(input)[i])
    {
      assert Fault(env, input[i]) == None;
      assert ChunkBlock(input[i]) in LeafBlocks(input);
      env.DigestProper(ChunkBlock(input[i]).data);
    }
    if input != [] {
      var rest := input[1..];
      assert Leaves(rest) == Leaves(input)[1..] && Payloads(rest) == Payloads(input)[1..];
      forall b | b in LeafBlocks(rest) ensures b in LeafBlocks(input) {
        var i :| 0 <= i < |rest| && b == ChunkBlock(rest[i]);
        assert rest[i] == input[i + 1];
      }
      LeavesResolve(env, bs, rest, depth);
    }
  }

  /** Build then Resolve is the identity: with every block stored and no chunk itself a canonical internal node,
      the walk ends cleanly at every recursion bound above the height and emits the chunks in order. */
  lemma BuildThenResolve(env: Env, bs: map<Mid, Bytes>, input: seq<Chunk>, depth: nat)
    requires env.Sound() && PlainText(env)
    requires input != [] && AllGood(env, input)
    requires Stores(bs, LeafBlocks(input) + BatchBlocks(DagTree(env), 0, Leaves(input)))
    requires forall i :: 0 <= i < |input| ==> IsInternalNode(Payloads(input)[i]) == None
    requires depth > Height(|input|)
    ensures Stream(env, bs, BatchRoot(DagTree(env), 0, Leaves(input)), depth) == Outcome(Flatten(Payloads(input)), Done)
  {
    hide Stream, IsInternalNode, DagTree, MapConcat, BatchBlocks, LeafBlocks, Env.Sound;
    assert Stores(bs, LeafBlocks(input)) && Stores(bs, BatchBlocks(DagTree(env), 0, Leaves(input)));
    LeavesResolve(env, bs, input, depth - Height(|input|));
    ResolveBatch(env, bs, 0, Leaves(input), depth - Height(|input|));
  }

  /** The hypothesis on chunks is needed: a one-chunk stream whose payload is a link list to an absent MID builds,
      but resolves to an error, because the resolver follows the look-alike's links. */
  lemma LookalikeChunkIsFollowed(env: Env, target: Mid, depth: nat)
    requires env.Sound() && PlainText(env) && env.Proper(target) && depth >= 2
    requires target != env.FromBytes(NodeData(env, [target]))
    ensures
      var payload := NodeData(env, [target]);
      var chunk := Chunk(env.FromBytes(payload), payload);
      && AllGood(env, [chunk])
      && BatchRoot(DagTree(env), 0, Leaves([chunk])) == chunk.mid
      && Stream(env, map[chunk.mid := payload], chunk.mid, depth) == Outcome([], Missing(target))
  {
    hide IsInternalNode;
    var payload := NodeData(env, [target]);
    NodeRecognised(env, [target]);
    assert payload != [] by {
      assert Texts(env, [target]) != [];
    }
    assert StreamLinks(env, map[env.FromBytes(payload) := payload], Texts(env, [target]), depth - 1)
        == Outcome([], Missing(target));
  }

  /** Against a store that holds nothing but one block, following the block's own links never ends cleanly. */
  lemma {:induction false} LoneNodeNeverResolves(env: Env, m: Mid, data: Bytes, depth: nat)
    requires IsInternalNode(data).Some?
    ensures Stream(env, map[m := data], m, depth).status != Done
  {
    var bs := map[m := data];
    assert IsInternalNode(data).value != [];
    hide IsInternalNode;
    if depth > 0 && env.digest(data) == m.hash {
      var links := IsInternalNode(data).value;
      LoneNodeNeverResolves(env, m, data, depth - 1);
      OtherBlocksMissing(env, m, data, depth - 1, env.parse(links[0]));
      FailsFirst(env, bs, links, depth - 1);
    }
  }

  lemma OtherBlocksMissing(env: Env, m: Mid, data: Bytes, depth: nat, child: Option<Mid>)
    requires Stream(env, map[m := data], m, depth).status != Done
    ensures child.Some? ==> Stream(env, map[m := data], child.value, depth).status != Done
  {
    hide IsInternalNode;
  }

  lemma FailsFirst(env: Env, bs: map<Mid, Bytes>, links: seq<Bytes>, depth: nat)
    requires links != []
    requires env.parse(links[0]).Some? ==> Stream(env, bs, env.parse(links[0]).value, depth).status != Done
    ensures StreamLinks(env, bs, links, depth).status != Done
  {
    hide Stream;
  }

  /** For a one-chunk stream read back from what Build wrote, the round trip holds exactly when the chunk is no canonical
      link list. */
  lemma OneChunkRoundTripIff(env: Env, payload: Bytes, depth: nat)
    requires depth > 0
    ensures
      var m := env.FromBytes(payload);
      Stream(env, map[m := payload], m, depth) == Outcome(payload, Done) <==> IsInternalNode(payload) == None
  {
    if IsInternalNode(payload).Some? {
      LoneNodeNeverResolves(env, env.FromBytes(payload), payload, depth);
    }
  }
}
