/** core/store/walk.go: the depth-first walk behind Seal and GC. */
module StoreWalk {
  import opened Common
  import opened Wire
  import opened MemfsBuild

  const LARGE_LEAF := 16384

  /** A DescriptorPayload as far as the walk looks at it: the root and block MIDs in text form. */
  datatype Descriptor = Descriptor(root: Bytes, blocks: seq<Bytes>)

  /** Generated decoders enter as parameters; DAGNode decoding is the one modelled in Wire. */
  datatype Decoders = Decoders(fs: Fs, descriptor: Bytes -> Option<Descriptor>)

  const MAGIC: Bytes := [0x4D, 0x45, 0x4D, 0x42]

  function TryDescriptor(dec: Decoders, data: Bytes): Option<Descriptor> {
    match dec.descriptor(data)
    case Some(d) => if d.root != [] then Some(d) else Wrapped(dec, data)
    case None => Wrapped(dec, data)
  }

  function Wrapped(dec: Decoders, data: Bytes): Option<Descriptor> {
    if |data| < 5 + 32 || data[..4] != MAGIC || data[4] != 1 then None
    else
      match dec.descriptor(data[5..|data| - 32])
      case Some(d) => if d.root != [] then Some(d) else None
      case None => None
  }

  /** No descriptor with blocks, said directly: the block decodes to one without blocks, or neither it nor what four magic
      bytes, version 1 and 32 bytes of signature enclose decodes to one with root and blocks. */
  predicate Undescribed(dec: Decoders, data: Bytes) {
    var bare := dec.descriptor(data);
    if bare.Some? && bare.value.root != [] then bare.value.blocks == []
    else if |data| < 37 || data[..5] != [0x4D, 0x45, 0x4D, 0x42, 1] then true
    else
      var wrapped := dec.descriptor(data[5..|data| - 32]);
      wrapped == None || wrapped.value.root == [] || wrapped.value.blocks == []
  }

  lemma UndescribedIff(dec: Decoders, data: Bytes)
    ensures Undescribed(dec, data) <==> TryDescriptor(dec, data) == None || TryDescriptor(dec, data).value.blocks == []
  {
    if |data| >= 37 {
      assert data[..5] == data[..4] + [data[4]];
    }
  }

  /** Texts that parse, in order; the others are skipped. */
  function ParseAll(env: Env, texts: seq<Bytes>): seq<Mid> {
    if texts == [] then []
    else
      var rest := ParseAll(env, texts[1..]);
      match env.parse(texts[0])
      case Some(m) => [m] + rest
      case None => rest
  }

  /** Children of a FILE and of a DIR node; empty and malformed multihashes are skipped. */
  function BlockChildren(env: Env, blocks: seq<BlockRef>): seq<Mid> {
    if blocks == [] then []
    else if blocks[0].hash == [] || !env.envelope(blocks[0].hash) then BlockChildren(env, blocks[1..])
    else [Mid(if blocks[0].size > 0 then CODEC_RAW else CODEC_MEMFS, blocks[0].hash)] + BlockChildren(env, blocks[1..])
  }

  function EntryChildren(env: Env, entries: seq<Entry>): seq<Mid> {
    if entries == [] then []
    else if entries[0].hash == [] || !env.envelope(entries[0].hash) then EntryChildren(env, entries[1..])
    else [Mid(if entries[0].kind == Raw then CODEC_RAW else CODEC_MEMFS, entries[0].hash)] + EntryChildren(env, entries[1..])
  }

  /** How the walk sees a block. */
  datatype Class = Leaf | Internal(children: seq<Mid>)

  function Classify(dec: Decoders, codec: Codec, data: Bytes): Class {
    if codec == CODEC_RAW && |data| > LARGE_LEAF then Leaf
    else
      var desc := TryDescriptor(dec, data);
      if desc.Some? && desc.value.blocks != [] then
        Internal(ParseAll(dec.fs.env, [desc.value.root] + desc.value.blocks))
      else if codec == CODEC_MEMFS then ClassifyMemfs(dec, data)
      else
        match Unmarshal(data)
        case Some(node) => if node.links != [] then Internal(ParseAll(dec.fs.env, node.links)) else Leaf
        case None => Leaf
  }

  function ClassifyMemfs(dec: Decoders, data: Bytes): Class {
    match dec.fs.decode(data)
    case None => Leaf
    case Some(node) =>
      if node.kind == File then
        if node.data != [] && |node.blocks| <= 1 then Leaf
        else if node.blocks == [] then Leaf
        else Internal(BlockChildren(dec.fs.env, node.blocks))
      else if node.kind == Dir && node.entries != [] then Internal(EntryChildren(dec.fs.env, node.entries))
      else Leaf
  }

  /** Blocks are looked up by multihash only. */
  type BlockMap = map<Bytes, Bytes>

  function Children(dec: Decoders, blocks: BlockMap, m: Mid): seq<Mid> {
    if m.hash !in blocks then []
    else
      match Classify(dec, m.codec, blocks[m.hash])
      case Leaf => []
      case Internal(cs) => cs
  }

  // ------------------------------------------------------- reachability

  ghost predicate IsPath(dec: Decoders, blocks: BlockMap, p: seq<Mid>) {
    p != [] && forall i :: 0 <= i < |p| - 1 ==> p[i + 1] in Children(dec, blocks, p[i])
  }

  ghost predicate Reach(dec: Decoders, blocks: BlockMap, a: Mid, b: Mid) {
    exists p :: IsPath(dec, blocks, p) && p[0] == a && p[|p| - 1] == b
  }

  lemma ReachSelf(dec: Decoders, blocks: BlockMap, a: Mid)
    ensures Reach(dec, blocks, a, a)
  {
    var p := [a];
    assert IsPath(dec, blocks, p) && p[0] == a && p[|p| - 1] == a;
  }

  lemma ReachStep(dec: Decoders, blocks: BlockMap, a: Mid, b: Mid, c: Mid)
    requires Reach(dec, blocks, a, b) && c in Children(dec, blocks, b)
    ensures Reach(dec, blocks, a, c)
  {
    hide Children;
    var p :| IsPath(dec, blocks, p) && p[0] == a && p[|p| - 1] == b;
    var q := p + [c];
    assert IsPath(dec, blocks, q) && q[0] == a && q[|q| - 1] == c;
  }

  /** First step, then the rest. */
  lemma ReachHead(dec: Decoders, blocks: BlockMap, a: Mid, b: Mid, c: Mid)
    requires b in Children(dec, blocks, a) && Reach(dec, blocks, b, c)
    ensures Reach(dec, blocks, a, c)
  {
    hide Children;
    var p :| IsPath(dec, blocks, p) && p[0] == b && p[|p| - 1] == c;
    var q := [a] + p;
    assert IsPath(dec, blocks, q) by {
      forall i | 0 <= i < |q| - 1 ensures q[i + 1] in Children(dec, blocks, q[i]) {
        if i > 0 { assert p[i] in Children(dec, blocks, p[i - 1]); }
      }
    }
    assert q[0] == a && q[|q| - 1] == c;
  }

  ghost predicate ClosedUnder(dec: Decoders, blocks: BlockMap, s: set<Mid>) {
    forall x, c :: x in s && c in Children(dec, blocks, x) ==> c in s
  }

  /** A closed set that contains the start of a path contains its end. */
  lemma {:induction false} ClosedContainsPath(dec: Decoders, blocks: BlockMap, s: set<Mid>, p: seq<Mid>)
    requires ClosedUnder(dec, blocks, s) && IsPath(dec, blocks, p) && p[0] in s
    ensures p[|p| - 1] in s
  {
    hide Children;
    if |p| > 1 {
      assert p[1] in Children(dec, blocks, p[0]);
      var t := p[1..];
      forall i | 0 <= i < |t| - 1 ensures t[i + 1] in Children(dec, blocks, t[i]) {
        assert p[i + 2] in Children(dec, blocks, p[i + 1]);
      }
      ClosedContainsPath(dec, blocks, s, t);
    }
  }

  // ------------------------------------------------- a finite universe

  /** The class of a block depends on its codec only through three cases, so a finite store has finitely many links. */
  function Kids(dec: Decoders, codec: Codec, data: Bytes): set<Mid> {
    match Classify(dec, codec, data)
    case Leaf => {}
    case Internal(cs) => set c | c in cs
  }

  function AllKids(dec: Decoders, data: Bytes): set<Mid> {
    Kids(dec, CODEC_RAW, data) + Kids(dec, CODEC_MEMFS, data) + Kids(dec, 0, data)
  }

  function Universe(dec: Decoders, blocks: BlockMap, root: Mid): set<Mid> {
    {root} + set h, c | h in blocks.Keys && c in AllKids(dec, blocks[h]) :: c
  }

  lemma KidsCovered(dec: Decoders, codec: Codec, data: Bytes)
    ensures Kids(dec, codec, data) <= AllKids(dec, data)
  {
    hide TryDescriptor, Unmarshal, ClassifyMemfs, ParseAll;
    if codec != CODEC_RAW && codec != CODEC_MEMFS {
      assert Classify(dec, codec, data) == Classify(dec, 0, data);
    }
  }

  lemma UniverseClosed(dec: Decoders, blocks: BlockMap, root: Mid)
    ensures root in Universe(dec, blocks, root) && ClosedUnder(dec, blocks, Universe(dec, blocks, root))
  {
    hide Classify, AllKids;
    var u := Universe(dec, blocks, root);
    forall x, c | x in u && c in Children(dec, blocks, x) ensures c in u {
      KidsCovered(dec, x.codec, blocks[x.hash]);
      assert c in Kids(dec, x.codec, blocks[x.hash]);
      assert c in AllKids(dec, blocks[x.hash]);
    }
  }

  // ------------------------------------------------------------ the walk

  datatype Visit = Visit(m: Mid, leaf: bool)

  ghost predicate Listed(order: seq<Visit>, m: Mid) {
    exists i :: 0 <= i < |order| && order[i].m == m
  }

  /** The calls made so far: one for each visited MID that is present, none twice, each with the right leaf flag. */
  ghost predicate Tracks(dec: Decoders, blocks: BlockMap, order: seq<Visit>, visited: set<Mid>) {
    && (forall i, j :: 0 <= i < j < |order| ==> order[i].m != order[j].m)
    && (forall x :: Listed(order, x) <==> x in visited && x.hash in blocks)
    && (forall i :: 0 <= i < |order| && order[i].m.hash in blocks ==>
          order[i].leaf == Classify(dec, order[i].m.codec, blocks[order[i].m.hash]).Leaf?)
  }

  ghost predicate HasParentBefore(dec: Decoders, blocks: BlockMap, order: seq<Visit>, j: nat) {
    exists i :: 0 <= i < j < |order| && order[j].m in Children(dec, blocks, order[i].m)
  }

  /** The calls a (sub)walk from `m` added: the first one, if any, is `m`; every later one follows one of its parents. */
  ghost predicate ParentsFirst(dec: Decoders, blocks: BlockMap, m: Mid, before: seq<Visit>, order: seq<Visit>) {
    && before <= order
    && (|before| < |order| ==> order[|before|].m == m)
    && (forall j :: |before| < j < |order| ==> HasParentBefore(dec, blocks, order, j))
  }

  /** What a (sub)walk from `m` did to the visited set: it only added MIDs reachable from `m`. */
  ghost predicate Explored(dec: Decoders, blocks: BlockMap, m: Mid, before: set<Mid>, after: set<Mid>) {
    && before <= after && m in after
    && (forall x :: x in after && x !in before ==> Reach(dec, blocks, m, x))
  }

  /** Everything new is present and fully expanded. */
  ghost predicate Expanded(dec: Decoders, blocks: BlockMap, lenient: bool, before: set<Mid>, after: set<Mid>) {
    && (forall x, c :: x in after && x !in before && c in Children(dec, blocks, x) ==> c in after)
    && (!lenient ==> forall x :: x in after && x !in before ==> x.hash in blocks)
  }

  ghost predicate MissingBelow(dec: Decoders, blocks: BlockMap, m: Mid) {
    exists x :: Reach(dec, blocks, m, x) && x.hash !in blocks
  }

  lemma TracksCall(dec: Decoders, blocks: BlockMap, order: seq<Visit>, visited: set<Mid>, m: Mid, leaf: bool)
    requires Tracks(dec, blocks, order, visited) && m !in visited && m.hash in blocks
    requires leaf == Classify(dec, m.codec, blocks[m.hash]).Leaf?
    ensures Tracks(dec, blocks, order + [Visit(m, leaf)], visited + {m})
  {
    hide Classify;
    var order' := order + [Visit(m, leaf)];
    forall i, j | 0 <= i < j < |order'| ensures order'[i].m != order'[j].m {
      assert Listed(order, order'[i].m);
    }
    forall x ensures Listed(order', x) <==> x in visited + {m} && x.hash in blocks {
      if Listed(order, x) {
        var i :| 0 <= i < |order| && order[i].m == x;
        assert order'[i].m == x;
      }
      assert order'[|order|].m == m;
      if Listed(order', x) && x != m {
        var i :| 0 <= i < |order'| && order'[i].m == x;
        assert order[i].m == x;
      }
    }
  }

  lemma TracksMissing(dec: Decoders, blocks: BlockMap, order: seq<Visit>, visited: set<Mid>, m: Mid)
    requires Tracks(dec, blocks, order, visited) && m.hash !in blocks
    ensures Tracks(dec, blocks, order, visited + {m})
  {
  }

  /** A child's walk appended to its parent's calls. */
  lemma ParentsFirstChild(dec: Decoders, blocks: BlockMap, m: Mid, child: Mid, start: seq<Visit>, before: seq<Visit>, order: seq<Visit>)
    requires ParentsFirst(dec, blocks, m, start, before) && |start| < |before|
    requires child in Children(dec, blocks, m) && ParentsFirst(dec, blocks, child, before, order)
    ensures ParentsFirst(dec, blocks, m, start, order) && |before| <= |order|
  {
    hide Children;
    forall j | |start| < j < |order| ensures HasParentBefore(dec, blocks, order, j) {
      if j < |before| {
        assert HasParentBefore(dec, blocks, before, j);
        var i :| 0 <= i < j && before[j].m in Children(dec, blocks, before[i].m);
        assert order[j] == before[j] && order[i] == before[i];
      } else if j == |before| {
        assert order[|start|] == before[|start|];
      }
    }
  }

  lemma ExploredChild(dec: Decoders, blocks: BlockMap, m: Mid, child: Mid, start: set<Mid>, before: set<Mid>, after: set<Mid>)
    requires Explored(dec, blocks, m, start, before) && child in Children(dec, blocks, m)
    requires Explored(dec, blocks, child, before, after)
    ensures Explored(dec, blocks, m, start, after)
  {
    hide Children, Reach;
    forall x | x in after && x !in start ensures Reach(dec, blocks, m, x) {
      if x !in before {
        ReachHead(dec, blocks, m, child, x);
      }
    }
  }

  lemma ExploredSelf(dec: Decoders, blocks: BlockMap, m: Mid, before: set<Mid>)
    ensures Explored(dec, blocks, m, before, before + {m})
  {
    ReachSelf(dec, blocks, m);
  }

  lemma MissingChild(dec: Decoders, blocks: BlockMap, m: Mid, child: Mid)
    requires child in Children(dec, blocks, m) && MissingBelow(dec, blocks, child)
    ensures MissingBelow(dec, blocks, m)
  {
    hide Children, Reach;
    var x :| Reach(dec, blocks, child, x) && x.hash !in blocks;
    ReachHead(dec, blocks, m, child, x);
  }

  // ------------------------------------------------ the walk, as a function

  /** State of the walk: what it marked as visited, the calls it made, and whether it is still going. */
  datatype Walked = Walked(visited: set<Mid>, order: seq<Visit>, ok: bool)

  /** The depth-first walk from `m` on a store whose links all lie in the finite set `universe`. */
  ghost function Dfs(dec: Decoders, blocks: BlockMap, lenient: bool, universe: set<Mid>, m: Mid,
                     visited: set<Mid>, order: seq<Visit>): (r: Walked)
    requires m in universe && visited <= universe && ClosedUnder(dec, blocks, universe)
    ensures visited <= r.visited <= universe
    decreases universe - visited, 0
  {
    if m in visited then Walked(visited, order, true)
    else if m.hash !in blocks then Walked(visited + {m}, order, lenient)
    else
      match Classify(dec, m.codec, blocks[m.hash])
      case Leaf => Walked(visited + {m}, order + [Visit(m, true)], true)
      case Internal(children) =>
        assert forall c :: c in children ==> c in Children(dec, blocks, m);
        DfsAll(dec, blocks, lenient, universe, children, visited + {m}, order + [Visit(m, false)])
  }

  /** The children in turn; the first failure stops everything. */
  ghost function DfsAll(dec: Decoders, blocks: BlockMap, lenient: bool, universe: set<Mid>, children: seq<Mid>,
                        visited: set<Mid>, order: seq<Visit>): (r: Walked)
    requires forall c :: c in children ==> c in universe
    requires visited <= universe && ClosedUnder(dec, blocks, universe)
    ensures visited <= r.visited <= universe
    decreases universe - visited, |children|
  {
    if children == [] then Walked(visited, order, true)
    else
      var first := Dfs(dec, blocks, lenient, universe, children[0], visited, order);
      if !first.ok then first
      else DfsAll(dec, blocks, lenient, universe, children[1..], first.visited, first.order)
  }

  /** Everything a (sub)walk promises about the state it leaves. */
  ghost predicate Sound(dec: Decoders, blocks: BlockMap, lenient: bool, m: Mid, visited: set<Mid>, order: seq<Visit>, r: Walked) {
    && Tracks(dec, blocks, r.order, r.visited)
    && Explored(dec, blocks, m, visited, r.visited)
    && ParentsFirst(dec, blocks, m, order, r.order)
    && (r.ok ==> Expanded(dec, blocks, lenient, visited, r.visited))
    && (!r.ok ==> !lenient && MissingBelow(dec, blocks, m))
  }

  /** The same while the children of `m` are being walked: `m` is in, the first ones are done. */
  ghost predicate Expanding(dec: Decoders, blocks: BlockMap, lenient: bool, m: Mid, start: set<Mid>, first: seq<Visit>,
                            visited: set<Mid>, order: seq<Visit>) {
    && start + {m} <= visited && |first| < |order|
    && Tracks(dec, blocks, order, visited)
    && Explored(dec, blocks, m, start, visited)
    && ParentsFirst(dec, blocks, m, first, order)
    && Expanded(dec, blocks, lenient, start + {m}, visited)
  }

  lemma {:induction false} DfsSound(dec: Decoders, blocks: BlockMap, lenient: bool, universe: set<Mid>, m: Mid,
                                    visited: set<Mid>, order: seq<Visit>)
    requires m in universe && visited <= universe && ClosedUnder(dec, blocks, universe)
    requires Tracks(dec, blocks, order, visited)
    ensures Sound(dec, blocks, lenient, m, visited, order, Dfs(dec, blocks, lenient, universe, m, visited, order))
    decreases universe - visited, 0
  {
    hide Reach, Tracks, Classify;
    ReachSelf(dec, blocks, m);
    if m !in visited {
      ExploredSelf(dec, blocks, m, visited);
      if m.hash !in blocks {
        TracksMissing(dec, blocks, order, visited, m);
      } else {
        var kind := Classify(dec, m.codec, blocks[m.hash]);
        var order' := order + [Visit(m, kind.Leaf?)];
        TracksCall(dec, blocks, order, visited, m, kind.Leaf?);
        if kind.Internal? {
          StartExpanding(dec, blocks, lenient, m, visited, order);
          DfsAllSound(dec, blocks, lenient, universe, m, kind.children, 0, visited, order, visited + {m}, order');
        }
      }
    }
  }

  lemma StartExpanding(dec: Decoders, blocks: BlockMap, lenient: bool, m: Mid, visited: set<Mid>, order: seq<Visit>)
    requires m.hash in blocks && m !in visited
    requires Tracks(dec, blocks, order + [Visit(m, false)], visited + {m})
    ensures Expanding(dec, blocks, lenient, m, visited, order, visited + {m}, order + [Visit(m, false)])
  {
    hide Reach, Tracks, Children;
    ExploredSelf(dec, blocks, m, visited);
  }

  lemma {:induction false} DfsAllSound(dec: Decoders, blocks: BlockMap, lenient: bool, universe: set<Mid>, m: Mid, children: seq<Mid>,
                                       i: nat, start: set<Mid>, first: seq<Visit>, visited: set<Mid>, order: seq<Visit>)
    requires m.hash in blocks && Children(dec, blocks, m) == children && i <= |children|
    requires m in universe && m !in start && visited <= universe && ClosedUnder(dec, blocks, universe)
    requires forall c :: c in children ==> c in universe
    requires Expanding(dec, blocks, lenient, m, start, first, visited, order)
    requires forall j :: 0 <= j < i ==> children[j] in visited
    ensures Sound(dec, blocks, lenient, m, start, first, DfsAll(dec, blocks, lenient, universe, children[i..], visited, order))
    decreases universe - visited, |children| - i
  {
    hide Reach, Tracks, Classify, Children, Explored, ParentsFirst, MissingBelow, Expanded;
    if i == |children| {
      ExpandedParent(dec, blocks, lenient, start, m, visited);
    } else {
      var child := children[i];
      assert children[i..][0] == child && children[i..][1..] == children[i + 1..];
      DfsSound(dec, blocks, lenient, universe, child, visited, order);
      var r := Dfs(dec, blocks, lenient, universe, child, visited, order);
      ExploredGrows(dec, blocks, child, visited, r.visited);
      ExploredChild(dec, blocks, m, child, start, visited, r.visited);
      ParentsFirstChild(dec, blocks, m, child, first, order, r.order);
      if r.ok {
        ExpandedTwice(dec, blocks, lenient, start + {m}, visited, r.visited);
        DfsAllSound(dec, blocks, lenient, universe, m, children, i + 1, start, first, r.visited, r.order);
      } else {
        MissingChild(dec, blocks, m, child);
      }
    }
  }

  /** Two stores that agree on every block the walk looked at give the same walk, whatever finite sets bound them. */
  lemma {:induction false} DfsAgrees(dec: Decoders, a: BlockMap, b: BlockMap, lenient: bool, ua: set<Mid>, ub: set<Mid>, m: Mid,
                                     visited: set<Mid>, order: seq<Visit>)
    requires m in ua && visited <= ua && ClosedUnder(dec, a, ua)
    requires m in ub && visited <= ub && ClosedUnder(dec, b, ub)
    requires SameBlocks(a, b, Dfs(dec, a, lenient, ua, m, visited, order).visited - visited)
    ensures Dfs(dec, a, lenient, ua, m, visited, order) == Dfs(dec, b, lenient, ub, m, visited, order)
    decreases ua - visited, 0
  {
    hide Classify;
    if m !in visited && m.hash in a {
      assert m in Dfs(dec, a, lenient, ua, m, visited, order).visited - visited;
      var kind := Classify(dec, m.codec, a[m.hash]);
      if kind.Internal? {
        assert Children(dec, a, m) == kind.children && Children(dec, b, m) == kind.children;
        DfsAllAgrees(dec, a, b, lenient, ua, ub, kind.children, visited + {m}, order + [Visit(m, false)]);
      }
    }
  }

  lemma {:induction false} DfsAllAgrees(dec: Decoders, a: BlockMap, b: BlockMap, lenient: bool, ua: set<Mid>, ub: set<Mid>,
                                        children: seq<Mid>, visited: set<Mid>, order: seq<Visit>)
    requires visited <= ua && ClosedUnder(dec, a, ua) && visited <= ub && ClosedUnder(dec, b, ub)
    requires forall c :: c in children ==> c in ua && c in ub
    requires SameBlocks(a, b, DfsAll(dec, a, lenient, ua, children, visited, order).visited - visited)
    ensures DfsAll(dec, a, lenient, ua, children, visited, order) == DfsAll(dec, b, lenient, ub, children, visited, order)
    decreases ua - visited, |children|
  {
    if children != [] {
      var r := Dfs(dec, a, lenient, ua, children[0], visited, order);
      DfsAgrees(dec, a, b, lenient, ua, ub, children[0], visited, order);
      if r.ok {
        DfsAllAgrees(dec, a, b, lenient, ua, ub, children[1..], r.visited, r.order);
      }
    }
  }

  /** The same keys among these MIDs, with the same payloads. */
  ghost predicate SameBlocks(a: BlockMap, b: BlockMap, s: set<Mid>) {
    forall x :: x in s ==> (x.hash in a <==> x.hash in b) && (x.hash in a ==> a[x.hash] == b[x.hash])
  }

  // ---------------------------------------------- how far a walk gets

  /** The children of a visited block were visited in order, up to the last one or up to one with something missing
      below it. */
  ghost predicate Progressed(dec: Decoders, blocks: BlockMap, x: Mid, visited: set<Mid>) {
    x.hash in blocks ==> exists n :: ProgressedTo(dec, blocks, x, visited, n)
  }

  ghost predicate ProgressedTo(dec: Decoders, blocks: BlockMap, x: Mid, visited: set<Mid>, n: nat) {
    var children := Children(dec, blocks, x);
    && n <= |children| && (forall i :: 0 <= i < n ==> children[i] in visited)
    && (n == |children| || (n > 0 && MissingBelow(dec, blocks, children[n - 1])))
  }

  ghost predicate AllProgressed(dec: Decoders, blocks: BlockMap, before: set<Mid>, after: set<Mid>) {
    forall x :: x in after && x !in before ==> Progressed(dec, blocks, x, after)
  }

  lemma ProgressGrows(dec: Decoders, blocks: BlockMap, a: set<Mid>, b: set<Mid>, c: set<Mid>)
    requires AllProgressed(dec, blocks, a, b) && AllProgressed(dec, blocks, b, c) && b <= c
    ensures AllProgressed(dec, blocks, a, c)
  {
    hide Children, MissingBelow;
    forall x | x in c && x !in a ensures Progressed(dec, blocks, x, c) {
      if x in b && x.hash in blocks {
        var n :| ProgressedTo(dec, blocks, x, b, n);
        assert ProgressedTo(dec, blocks, x, c, n);
      }
    }
  }

  lemma ProgressParent(dec: Decoders, blocks: BlockMap, start: set<Mid>, m: Mid, after: set<Mid>, n: nat)
    requires AllProgressed(dec, blocks, start + {m}, after) && ProgressedTo(dec, blocks, m, after, n)
    ensures AllProgressed(dec, blocks, start, after)
  {
    hide ProgressedTo;
  }

  lemma {:induction false} DfsProgresses(dec: Decoders, blocks: BlockMap, lenient: bool, universe: set<Mid>, m: Mid,
                                         visited: set<Mid>, order: seq<Visit>)
    requires m in universe && visited <= universe && ClosedUnder(dec, blocks, universe)
    requires Tracks(dec, blocks, order, visited)
    ensures AllProgressed(dec, blocks, visited, Dfs(dec, blocks, lenient, universe, m, visited, order).visited)
    decreases universe - visited, 0
  {
    hide Reach, Tracks, Classify, Progressed;
    if m !in visited {
      if m.hash !in blocks {
        AbsentProgressed(dec, blocks, m, visited + {m});
      } else {
        var kind := Classify(dec, m.codec, blocks[m.hash]);
        var order' := order + [Visit(m, kind.Leaf?)];
        TracksCall(dec, blocks, order, visited, m, kind.Leaf?);
        if kind.Leaf? {
          LeafProgressed(dec, blocks, m, visited + {m});
        } else {
          DfsAllProgresses(dec, blocks, lenient, universe, m, kind.children, 0, visited, visited + {m}, order');
        }
      }
    }
  }

  lemma AbsentProgressed(dec: Decoders, blocks: BlockMap, m: Mid, visited: set<Mid>)
    requires m.hash !in blocks
    ensures Progressed(dec, blocks, m, visited)
  {
  }

  lemma LeafProgressed(dec: Decoders, blocks: BlockMap, m: Mid, visited: set<Mid>)
    requires m.hash in blocks && Classify(dec, m.codec, blocks[m.hash]) == Leaf
    ensures Progressed(dec, blocks, m, visited)
  {
    hide Classify;
    assert ProgressedTo(dec, blocks, m, visited, 0);
  }

  lemma {:induction false} DfsAllProgresses(dec: Decoders, blocks: BlockMap, lenient: bool, universe: set<Mid>, m: Mid,
                                            children: seq<Mid>, i: nat, start: set<Mid>, visited: set<Mid>, order: seq<Visit>)
    requires m.hash in blocks && Children(dec, blocks, m) == children && i <= |children|
    requires visited <= universe && ClosedUnder(dec, blocks, universe) && forall c :: c in children ==> c in universe
    requires Tracks(dec, blocks, order, visited) && AllProgressed(dec, blocks, start + {m}, visited)
    requires forall j :: 0 <= j < i ==> children[j] in visited
    ensures AllProgressed(dec, blocks, start, DfsAll(dec, blocks, lenient, universe, children[i..], visited, order).visited)
    decreases universe - visited, |children| - i
  {
    hide Reach, Tracks, Classify, Children, MissingBelow, AllProgressed;
    if i == |children| {
      ProgressParent(dec, blocks, start, m, visited, i);
    } else {
      var child := children[i];
      assert children[i..][0] == child && children[i..][1..] == children[i + 1..];
      DfsSound(dec, blocks, lenient, universe, child, visited, order);
      DfsProgresses(dec, blocks, lenient, universe, child, visited, order);
      var r := Dfs(dec, blocks, lenient, universe, child, visited, order);
      ProgressGrows(dec, blocks, start + {m}, visited, r.visited);
      if r.ok {
        DfsAllProgresses(dec, blocks, lenient, universe, m, children, i + 1, start, r.visited, r.order);
      } else {
        ProgressParent(dec, blocks, start, m, r.visited, i + 1);
      }
    }
  }

  /** Apart from the blocks in `open`, whose children are being walked, everything visited is present and expanded. */
  ghost predicate Clean(dec: Decoders, blocks: BlockMap, visited: set<Mid>, open: set<Mid>) {
    forall y :: y in visited && y !in open ==> y.hash in blocks && forall c :: c in Children(dec, blocks, y) ==> c in visited
  }

  /** A walk from a complete MID ends, and leaves a clean state that reached nothing else. */
  lemma CompleteWalksOn(dec: Decoders, blocks: BlockMap, universe: set<Mid>, c: Mid, visited: set<Mid>, order: seq<Visit>, open: set<Mid>)
    requires c in universe && visited <= universe && ClosedUnder(dec, blocks, universe)
    requires Tracks(dec, blocks, order, visited) && Clean(dec, blocks, visited, open) && Complete(dec, blocks, c)
    ensures
      var r := Dfs(dec, blocks, false, universe, c, visited, order);
      && r.ok && Tracks(dec, blocks, r.order, r.visited) && Clean(dec, blocks, r.visited, open)
      && (forall x :: x in r.visited && x !in visited ==> Reach(dec, blocks, c, x))
  {
    hide Reach, Children, Tracks, Dfs;
    DfsSound(dec, blocks, false, universe, c, visited, order);
  }

  /** A walk from an incomplete MID fails, unless it leads back to an open block. */
  lemma IncompleteFails(dec: Decoders, blocks: BlockMap, universe: set<Mid>, p: Mid, visited: set<Mid>, order: seq<Visit>, open: set<Mid>)
    requires p in universe && visited <= universe && ClosedUnder(dec, blocks, universe)
    requires Tracks(dec, blocks, order, visited) && Clean(dec, blocks, visited, open) && !Complete(dec, blocks, p)
    requires p !in open && forall a :: a in open ==> !Reach(dec, blocks, p, a)
    ensures !Dfs(dec, blocks, false, universe, p, visited, order).ok
  {
    hide Reach, Children, Tracks, Dfs;
    DfsSound(dec, blocks, false, universe, p, visited, order);
    var r := Dfs(dec, blocks, false, universe, p, visited, order);
    if r.ok {
      var below := set x | x in r.visited && Reach(dec, blocks, p, x);
      ReachSelf(dec, blocks, p);
      forall x, c | x in below && c in Children(dec, blocks, x) ensures c in below {
        ReachStep(dec, blocks, p, x, c);
      }
      forall x | Reach(dec, blocks, p, x) ensures x.hash in blocks {
        ClosedContainsReach(dec, blocks, below, p, x);
      }
    }
  }

  /** Walking the first children, all complete, leaves the rest to walk from a clean state. */
  lemma {:induction false} AllWalkOn(dec: Decoders, blocks: BlockMap, universe: set<Mid>, children: seq<Mid>, n: nat,
                                     visited: set<Mid>, order: seq<Visit>, open: set<Mid>) returns (v: set<Mid>, o: seq<Visit>)
    requires n <= |children| && visited <= universe && ClosedUnder(dec, blocks, universe)
    requires forall c :: c in children ==> c in universe
    requires Tracks(dec, blocks, order, visited) && Clean(dec, blocks, visited, open)
    requires forall i :: 0 <= i < n ==> Complete(dec, blocks, children[i])
    ensures visited <= v <= universe && Tracks(dec, blocks, o, v) && Clean(dec, blocks, v, open)
    ensures DfsAll(dec, blocks, false, universe, children, visited, order)
         == DfsAll(dec, blocks, false, universe, children[n..], v, o)
    ensures forall x :: x in v && x !in visited ==> exists i :: 0 <= i < n && Reach(dec, blocks, children[i], x)
    decreases n
  {
    hide Reach, Children, Tracks, Dfs, Clean, Complete;
    v, o := visited, order;
    if n == 0 {
      assert children[0..] == children;
    } else {
      v, o := AllWalkOn(dec, blocks, universe, children, n - 1, visited, order, open);
      var c, rest := children[n - 1], children[n - 1..];
      assert rest[0] == c && rest[1..] == children[n..];
      CompleteWalksOn(dec, blocks, universe, c, v, o, open);
      var r := Dfs(dec, blocks, false, universe, c, v, o);
      forall x | x in r.visited && x !in visited ensures exists i :: 0 <= i < n && Reach(dec, blocks, children[i], x) {
        if x !in v {
          assert Reach(dec, blocks, children[n - 1], x);
        }
      }
      v, o := r.visited, r.order;
    }
  }

  // ------------------------------------------------- the walk, as it runs

  class Walker {
    const dec: Decoders
    const blocks: BlockMap
    const ignoreMissing: bool
    var visited: set<Mid>
    var order: seq<Visit>

    constructor (dec: Decoders, blocks: BlockMap, ignoreMissing: bool)
      ensures this.dec == dec && this.blocks == blocks && this.ignoreMissing == ignoreMissing
      ensures visited == {} && order == []
    {
      this.dec, this.blocks, this.ignoreMissing := dec, blocks, ignoreMissing;
      visited, order := {}, [];
    }

    /** The recursive closure of the source makes exactly the calls of the functional walk, in the same order. */
    method Explore(m: Mid, ghost universe: set<Mid>) returns (ok: bool)
      requires m in universe && visited <= universe && ClosedUnder(dec, blocks, universe)
      modifies this
      ensures Walked(visited, order, ok) == Dfs(dec, blocks, ignoreMissing, universe, m, old(visited), old(order))
      decreases universe - visited, 1
    {
      hide Classify;
      if m in visited {
        return true;
      }
      if m.hash !in blocks {
        visited := visited + {m};
        return ignoreMissing;
      }
      visited := visited + {m};
      var kind := Classify(dec, m.codec, blocks[m.hash]);
      if kind.Leaf? {
        order := order + [Visit(m, true)];
        return true;
      }
      order := order + [Visit(m, false)];
      var children, i := kind.children, 0;
      assert Children(dec, blocks, m) == children;
      assert children[0..] == children;
      ghost var all := DfsAll(dec, blocks, ignoreMissing, universe, children, visited, order);
      while i < |children|
        invariant 0 <= i <= |children| && visited <= universe && old(visited) + {m} <= visited
        invariant DfsAll(dec, blocks, ignoreMissing, universe, children[i..], visited, order) == all
      {
        assert children[i..][0] == children[i] && children[i..][1..] == children[i + 1..];
        assert children[i] in Children(dec, blocks, m);
        ok := Explore(children[i], universe);
        if !ok {
          return;
        }
        i := i + 1;
      }
      return true;
    }
  }

  lemma ExploredGrows(dec: Decoders, blocks: BlockMap, m: Mid, before: set<Mid>, after: set<Mid>)
    requires Explored(dec, blocks, m, before, after)
    ensures before <= after && m in after
  {
  }

  lemma ExpandedTwice(dec: Decoders, blocks: BlockMap, lenient: bool, a: set<Mid>, b: set<Mid>, c: set<Mid>)
    requires Expanded(dec, blocks, lenient, a, b) && Expanded(dec, blocks, lenient, b, c) && a <= b <= c
    ensures Expanded(dec, blocks, lenient, a, c)
  {
    hide Children;
  }

  lemma ExpandedParent(dec: Decoders, blocks: BlockMap, lenient: bool, start: set<Mid>, m: Mid, after: set<Mid>)
    requires Expanded(dec, blocks, lenient, start + {m}, after) && m.hash in blocks
    requires forall c :: c in Children(dec, blocks, m) ==> c in after
    ensures Expanded(dec, blocks, lenient, start, after)
  {
    hide Children;
  }

  // ------------------------------------------------------- main theorem

  /** Everything reachable from `root` is in the store. */
  ghost predicate Complete(dec: Decoders, blocks: BlockMap, root: Mid) {
    forall x :: Reach(dec, blocks, root, x) ==> x.hash in blocks
  }

  lemma ReachUnfold(dec: Decoders, blocks: BlockMap, a: Mid, b: Mid)
    requires Reach(dec, blocks, a, b) && a != b
    ensures exists c :: c in Children(dec, blocks, a) && Reach(dec, blocks, c, b)
  {
    hide Children;
    var p :| IsPath(dec, blocks, p) && p[0] == a && p[|p| - 1] == b;
    assert p[1] in Children(dec, blocks, p[0]);
    var t := p[1..];
    forall i | 0 <= i < |t| - 1 ensures t[i + 1] in Children(dec, blocks, t[i]) {
      assert p[i + 2] in Children(dec, blocks, p[i + 1]);
    }
    assert IsPath(dec, blocks, t) && t[0] == p[1] && t[|t| - 1] == b;
  }

  /** A present block has a complete DAG exactly when all its children have. */
  lemma CompleteUnfold(dec: Decoders, blocks: BlockMap, m: Mid)
    requires m.hash in blocks
    ensures Complete(dec, blocks, m) <==> forall c :: c in Children(dec, blocks, m) ==> Complete(dec, blocks, c)
  {
    hide Children, Reach;
    forall c, x | c in Children(dec, blocks, m) && Reach(dec, blocks, c, x) ensures Reach(dec, blocks, m, x) {
      ReachHead(dec, blocks, m, c, x);
    }
    forall x | Reach(dec, blocks, m, x) && x != m
      ensures exists c :: c in Children(dec, blocks, m) && Reach(dec, blocks, c, x)
    {
      ReachUnfold(dec, blocks, m, x);
    }
  }

  /** The walk of `Walk`: missing blocks are errors. */
  ghost function WalkFrom(dec: Decoders, blocks: BlockMap, root: Mid): Walked {
    UniverseClosed(dec, blocks, root);
    Dfs(dec, blocks, false, Universe(dec, blocks, root), root, {}, [])
  }

  /** On any finite store, cyclic links included: the walk succeeds exactly when everything reachable is present; then
      its calls are exactly the reachable MIDs, each once and after a parent. When it fails it has called only for
      reachable MIDs, and for the root if that is present. */
  lemma WalkIsClosure(dec: Decoders, blocks: BlockMap, root: Mid)
    ensures
      var r := WalkFrom(dec, blocks, root);
      && (r.ok <==> Complete(dec, blocks, root))
      && (forall x :: Listed(r.order, x) ==> Reach(dec, blocks, root, x) && x.hash in blocks)
      && (forall x :: Listed(r.order, x) <==> x in r.visited && x.hash in blocks)
      && (r.ok ==> forall x :: Reach(dec, blocks, root, x) ==> Listed(r.order, x))
      && (forall i, j :: 0 <= i < j < |r.order| ==> r.order[i].m != r.order[j].m)
      && (forall j :: 0 < j < |r.order| ==> HasParentBefore(dec, blocks, r.order, j))
      && (r.order != [] ==> r.order[0].m == root)
  {
    hide Reach, Children, Classify, Dfs;
    UniverseClosed(dec, blocks, root);
    var r := WalkFrom(dec, blocks, root);
    NothingTracked(dec, blocks);
    DfsSound(dec, blocks, false, Universe(dec, blocks, root), root, {}, []);
    if r.ok {
      forall x | Reach(dec, blocks, root, x) ensures x in r.visited {
        ClosedContainsReach(dec, blocks, r.visited, root, x);
      }
    }
  }

  lemma NothingTracked(dec: Decoders, blocks: BlockMap)
    ensures Tracks(dec, blocks, [], {})
  {
    hide Classify;
  }

  /** Walk: a zero root is an error, otherwise the functional walk from the root. */
  method Walk(dec: Decoders, blocks: BlockMap, root: Mid) returns (order: seq<Visit>, ok: bool)
    ensures root.IsZero() ==> order == [] && !ok
    ensures !root.IsZero() ==> order == WalkFrom(dec, blocks, root).order && ok == WalkFrom(dec, blocks, root).ok
  {
    hide Dfs;
    if root.IsZero() {
      return [], false;
    }
    var w := new Walker(dec, blocks, false);
    UniverseClosed(dec, blocks, root);
    ok := w.Explore(root, Universe(dec, blocks, root));
    order := w.order;
  }

  lemma ClosedContainsReach(dec: Decoders, blocks: BlockMap, s: set<Mid>, a: Mid, b: Mid)
    requires ClosedUnder(dec, blocks, s) && a in s && Reach(dec, blocks, a, b)
    ensures b in s
  {
    hide Children;
    var p :| IsPath(dec, blocks, p) && p[0] == a && p[|p| - 1] == b;
    ClosedContainsPath(dec, blocks, s, p);
  }
}
