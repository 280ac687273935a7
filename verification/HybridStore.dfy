/** core/store/pebble.go and bloom.go: the block and DAG namespaces of the Pebble / flat-file store behind
    a counting Bloom filter. */
module HybridStore {
  import opened Common
  import opened CountingBloom
  import opened StoreDisk

  /** What Bloom persistence keeps between two runs of the process. */
  datatype Snapshot = Snapshot(f: Shape, count: nat, counters: Bytes)

  /** In how many namespaces a key is used. */
  function Uses(blocks: set<Bytes>, nodes: set<Bytes>, h: Bytes): nat {
    (if h in blocks then 1 else 0) + (if h in nodes then 1 else 0)
  }

  /** Some bag for which the counters are exact holds each key once for every namespace it is used in. */
  ghost predicate Covers(f: Shape, counters: Bytes, held: seq<Bytes>, blocks: set<Bytes>, nodes: set<Bytes>) {
    Exact(f, counters, held) && forall h :: multiset(held)[h] >= Uses(blocks, nodes, h)
  }

  // --------------------------------------------------- the filter's part

  lemma AddCovers(f: Shape, cs: Bytes, held: seq<Bytes>, blocks: set<Bytes>, nodes: set<Bytes>, h: Bytes)
    requires Covers(f, cs, held, blocks, nodes) && h != []
    ensures Covers(f, Added(f, cs, h), held + [h], blocks + {h}, nodes)
    ensures Covers(f, Added(f, cs, h), held + [h], blocks, nodes + {h})
  {
    hide Exact;
    AddKeepsExact(f, cs, held, h);
    assert multiset(held + [h]) == multiset(held) + multiset{h};
  }

  lemma RemoveCovers(f: Shape, cs: Bytes, held: seq<Bytes>, blocks: set<Bytes>, nodes: set<Bytes>, h: Bytes)
    requires Covers(f, cs, held, blocks, nodes) && h in held
    ensures Covers(f, Removed(f, cs, h), Drop(held, IndexOf(held, h)), blocks - {h}, nodes - {h})
    ensures h in nodes ==> Covers(f, Removed(f, cs, h), Drop(held, IndexOf(held, h)), blocks, nodes - {h})
  {
    hide Exact, Uses, Removed;
    var i := IndexOf(held, h);
    RemoveKeepsExact(f, cs, held, i);
    DropOne(held, i);
    forall k ensures multiset(Drop(held, i))[k] >= Uses(blocks - {h}, nodes - {h}, k) {
      assert multiset(held)[k] >= Uses(blocks, nodes, k);
      FewerUses(blocks, nodes, h, k);
    }
    if h in nodes {
      forall k ensures multiset(Drop(held, i))[k] >= Uses(blocks, nodes - {h}, k) {
        assert multiset(held)[k] >= Uses(blocks, nodes, k);
        FewerUses(blocks, nodes, h, k);
      }
    }
  }

  lemma DropOne(s: seq<Bytes>, i: nat)
    requires i < |s|
    ensures forall k :: multiset(Drop(s, i))[k] == multiset(s)[k] - (if k == s[i] then 1 else 0)
  {
    assert s == s[..i] + [s[i]] + s[i + 1..];
    assert multiset(s) == multiset(s[..i]) + multiset{s[i]} + multiset(s[i + 1..]);
  }

  lemma FewerUses(blocks: set<Bytes>, nodes: set<Bytes>, h: Bytes, k: Bytes)
    ensures Uses(blocks - {h}, nodes - {h}, k) == if k == h then 0 else Uses(blocks, nodes, k)
    ensures h in nodes ==> Uses(blocks, nodes - {h}, k) == Uses(blocks, nodes, k) - (if k == h then 1 else 0)
  {
  }

  lemma CoversHeld(f: Shape, cs: Bytes, held: seq<Bytes>, blocks: set<Bytes>, nodes: set<Bytes>, h: Bytes)
    requires Covers(f, cs, held, blocks, nodes) && (h in blocks || h in nodes)
    ensures h in held
  {
    assert multiset(held)[h] >= Uses(blocks, nodes, h);
    assert h in multiset(held);
  }

  lemma CoversFewer(f: Shape, cs: Bytes, held: seq<Bytes>, blocks: set<Bytes>, nodes: set<Bytes>,
                    blocks': set<Bytes>, nodes': set<Bytes>)
    requires Covers(f, cs, held, blocks, nodes) && blocks' <= blocks && nodes' <= nodes
    ensures Covers(f, cs, held, blocks', nodes')
  {
    hide Exact;
    forall h ensures multiset(held)[h] >= Uses(blocks', nodes', h) {
      assert multiset(held)[h] >= Uses(blocks, nodes, h);
    }
  }

  lemma CoversShows(f: Shape, cs: Bytes, held: seq<Bytes>, blocks: set<Bytes>, nodes: set<Bytes>)
    requires Covers(f, cs, held, blocks, nodes)
    ensures |cs| == f.m && Shows(f, cs, blocks + nodes)
  {
    forall h | h in blocks + nodes ensures Tests(f, cs, h) {
      CoversHeld(f, cs, held, blocks, nodes, h);
      NoFalseNegatives(f, cs, held, h);
    }
  }

  /** The filter at startup: the snapshot if there is one, an empty filter otherwise, plus every key of both namespaces. */
  method LoadBloom(shape: Shape, snapshot: Option<Snapshot>, blocks: set<Bytes>, nodes: set<Bytes>, ghost held: seq<Bytes>)
      returns (b: CountingBloomFilter, ghost bag: seq<Bytes>)
    requires snapshot.Some? ==> Exact(snapshot.value.f, snapshot.value.counters, held)
    requires snapshot.None? ==> held == []
    requires [] !in blocks && [] !in nodes
    ensures fresh(b) && fresh(b.counters) && b.Valid()
    ensures Covers(b.f, b.counters[..], bag, blocks, nodes)
    ensures snapshot.None? ==> b.f == shape
    ensures snapshot.None? && blocks == {} && nodes == {} ==> b.counters[..] == CountersAfter(shape, [])
  {
    match snapshot {
      case Some(s) =>
        b := new CountingBloomFilter(s.f, Some(s.counters), s.count);
      case None =>
        b := new CountingBloomFilter(shape, None, 0);
        RunIsExact(b.f, []);
    }
    bag := held;
    hide Exact;
    assert Covers(b.f, b.counters[..], bag, {}, {});
    bag := AddKeys(b, blocks, bag, {}, {}, false);
    assert {} + blocks == blocks && {} + nodes == nodes;
    bag := AddKeys(b, nodes, bag, blocks, {}, true);
  }

  /** Covering part-way through the scan of one key prefix. */
  ghost predicate CoversSoFar(f: Shape, cs: Bytes, bag: seq<Bytes>, blocks: set<Bytes>, nodes: set<Bytes>, done: set<Bytes>, dag: bool) {
    Covers(f, cs, bag, if dag then blocks else blocks + done, if dag then nodes + done else nodes)
  }

  lemma CoversOneMore(f: Shape, cs: Bytes, bag: seq<Bytes>, blocks: set<Bytes>, nodes: set<Bytes>, done: set<Bytes>, dag: bool, h: Bytes)
    requires CoversSoFar(f, cs, bag, blocks, nodes, done, dag) && h != []
    ensures CoversSoFar(f, Added(f, cs, h), bag + [h], blocks, nodes, done + {h}, dag)
  {
    hide Covers, Added;
    var bs, ns := if dag then blocks else blocks + done, if dag then nodes + done else nodes;
    AddCovers(f, cs, bag, bs, ns, h);
    assert blocks + (done + {h}) == blocks + done + {h} && nodes + (done + {h}) == nodes + done + {h};
  }

  lemma CoversAtStart(f: Shape, cs: Bytes, bag: seq<Bytes>, blocks: set<Bytes>, nodes: set<Bytes>, dag: bool)
    requires Covers(f, cs, bag, blocks, nodes)
    ensures CoversSoFar(f, cs, bag, blocks, nodes, {}, dag)
  {
    assert blocks + {} == blocks && nodes + {} == nodes;
  }

  /** The scan over one key prefix. */
  method AddKeys(b: CountingBloomFilter, keys: set<Bytes>, ghost held: seq<Bytes>, ghost blocks: set<Bytes>,
                 ghost nodes: set<Bytes>, ghost dag: bool) returns (ghost bag: seq<Bytes>)
    requires b.Valid() && Covers(b.f, b.counters[..], held, blocks, nodes) && [] !in keys
    modifies b, b.counters
    ensures CoversSoFar(b.f, b.counters[..], bag, blocks, nodes, keys, dag)
    ensures keys == {} ==> b.counters[..] == old(b.counters[..])
  {
    CoversAtStart(b.f, b.counters[..], held, blocks, nodes, dag);
    hide Covers, CoversSoFar, Added;
    bag := held;
    var todo := keys;
    assert keys - todo == {};
    while todo != {}
      invariant todo <= keys && CoversSoFar(b.f, b.counters[..], bag, blocks, nodes, keys - todo, dag)
      invariant keys == {} ==> b.counters[..] == old(b.counters[..])
      decreases |todo|
    {
      var h :| h in todo;
      CoversOneMore(b.f, b.counters[..], bag, blocks, nodes, keys - todo, dag, h);
      assert keys - (todo - {h}) == (keys - todo) + {h};
      b.Add(h);
      bag := bag + [h];
      todo := todo - {h};
    }
    assert keys - todo == keys;
  }

  // ------------------------------------------------------------ the store

  class MemStore {
    const env: Env
    const onDisk: bool
    ghost const universe: set<Bytes>
    const bloom: CountingBloomFilter?
    var blockDb: map<Bytes, Bytes>
    var dagDb: map<Bytes, Bytes>
    var files: map<Mid, Bytes>
    var stamps: map<Mid, nat>
    var objects: map<Mid, Bytes>   // object records, kept by others and dropped by deletes
    var closed: bool
    ghost var blocks: map<Bytes, Bytes>
    ghost var nodes: map<Bytes, Bytes>
    ghost var held: seq<Bytes>

    ghost function Filter(): set<object> { if bloom == null then {} else {bloom, bloom.counters} }

    ghost function Footprint(): set<object> { {this} + Filter() }

    /** Keys, flat files and payloads stand for the two plain maps `blocks` and `nodes`. */
    ghost predicate DiskOk()
      reads this`blockDb, this`dagDb, this`files, this`blocks, this`nodes
    {
      && env.CollisionFree(universe) && FilesOk(env, universe, files)
      && Side(env, universe, onDisk, blockDb, blocks) && Side(env, universe, onDisk, dagDb, nodes)
    }

    /** The filter counts these keys, so that removing one of them is safe. */
    ghost predicate Counts(bs: set<Bytes>, ns: set<Bytes>)
      reads this`held, Filter()
    {
      bloom != null ==> bloom.Valid() && Covers(bloom.f, bloom.counters[..], held, bs, ns)
    }

    /** The filter denies none of these keys. */
    ghost predicate Passes(keys: set<Bytes>)
      reads Filter()
    {
      bloom != null ==> bloom.Valid() && Shows(bloom.f, bloom.counters[..], keys)
    }

    /** A state any run of operations leaves the store in, as long as its files are. */
    ghost predicate Usable()
      reads this, Filter()
    {
      DiskOk() && Passes({})
    }

    /** No key of the store is denied. */
    ghost predicate Sighted()
      reads this, Filter()
    {
      Usable() && Passes(blocks.Keys + nodes.Keys)
    }

    /** The state in which every delete of a held key keeps the store sighted. */
    ghost predicate Valid()
      reads this, Filter()
    {
      DiskOk() && Counts(blocks.Keys, nodes.Keys)
    }

    /** The plain map Get answers from. */
    ghost function Plain(): map<Bytes, Bytes>
      reads this`blocks, this`nodes
    {
      nodes + blocks
    }

    lemma ValidIsSighted()
      requires Valid()
      ensures Sighted() && Usable()
    {
      if bloom != null {
        CoversShows(bloom.f, bloom.counters[..], held, blocks.Keys, nodes.Keys);
      }
    }

    /** Opening over existing disk state: whatever snapshot is loaded, as long as it was exact for some bag, the
        rescan of all keys makes the filter cover the store. A fresh filter starts from the empty bag. */
    constructor Open(env: Env, onDisk: bool, ghost universe: set<Bytes>,
                     blockDb: map<Bytes, Bytes>, dagDb: map<Bytes, Bytes>, files: map<Mid, Bytes>, stamps: map<Mid, nat>,
                     objects: map<Mid, Bytes>, shape: Option<Shape>, snapshot: Option<Snapshot>,
                     ghost blocks: map<Bytes, Bytes>, ghost nodes: map<Bytes, Bytes>, ghost held: seq<Bytes>)
      requires env.CollisionFree(universe) && FilesOk(env, universe, files)
      requires Side(env, universe, onDisk, blockDb, blocks) && Side(env, universe, onDisk, dagDb, nodes)
      requires snapshot.Some? ==> shape.Some? && Exact(snapshot.value.f, snapshot.value.counters, held)
      requires snapshot.None? ==> held == []
      ensures Valid() && !closed && this.blocks == blocks && this.nodes == nodes
      ensures this.blockDb == blockDb && this.dagDb == dagDb && this.files == files && this.stamps == stamps
      ensures this.objects == objects
      ensures this.env == env && this.onDisk == onDisk && this.universe == universe
      ensures shape.None? <==> bloom == null
      ensures snapshot.None? && shape.Some? ==> bloom.f == shape.value
      ensures snapshot.None? && shape.Some? && blockDb == map[] && dagDb == map[] ==>
        bloom.counters[..] == CountersAfter(bloom.f, [])
      ensures bloom != null ==> fresh(bloom) && fresh(bloom.counters)
    {
      this.env, this.onDisk, this.universe, this.objects := env, onDisk, universe, objects;
      this.blockDb, this.dagDb, this.files, this.stamps, this.closed := blockDb, dagDb, files, stamps, false;
      this.blocks, this.nodes := blocks, nodes;
      ghost var bag := held;
      if shape.None? {
        bloom := null;
      } else {
        var b;
        b, bag := LoadBloom(shape.value, snapshot, blockDb.Keys, dagDb.Keys, held);
        bloom := b;
      }
      this.held := bag;
    }

    /** `bloom.add`, when there is a filter. */
    method AddToFilter(m: Mid, ghost bs: set<Bytes>, ghost ns: set<Bytes>)
      requires !m.IsZero() && Passes({})
      modifies this`held, Filter()
      ensures Passes({})
      ensures old(Counts(bs, ns)) ==> Counts(bs + {m.hash}, ns) && Counts(bs, ns + {m.hash})
      ensures old(Passes(bs + ns)) ==> Passes(bs + ns + {m.hash})
      ensures bloom != null ==> bloom.counters[..] == Added(bloom.f, old(bloom.counters[..]), m.hash)
    {
      hide Covers, Shows;
      if bloom != null {
        ghost var cs := bloom.counters[..];
        if Counts(bs, ns) {
          AddCovers(bloom.f, cs, held, bs, ns, m.hash);
        }
        if Shows(bloom.f, cs, bs + ns) {
          AddShows(bloom.f, cs, m.hash, bs + ns);
        }
        NothingShown(bloom.f, Added(bloom.f, cs, m.hash));
        bloom.Add(m.hash);
        held := held + [m.hash];
      }
    }

    /** `bloom.recordDelete`: it decrements without looking whether the key was there. */
    method RemoveFromFilter(m: Mid, ghost bs: set<Bytes>, ghost ns: set<Bytes>, ghost rest: set<Bytes>)
      requires Passes({})
      modifies this`held, Filter()
      ensures Passes({})
      ensures old(Counts(bs, ns)) && m.IsZero() ==> Counts(bs, ns)
      ensures old(Counts(bs, ns)) && (bloom == null || m.hash in old(held)) ==> Counts(bs - {m.hash}, ns - {m.hash})
      ensures old(Counts(bs, ns)) && m.hash in ns ==> Counts(bs, ns - {m.hash})
      ensures old(Passes(rest)) ==>
        (Passes(rest) <==> bloom == null || Spares(bloom.f, old(bloom.counters[..]), m.hash, rest))
      ensures bloom != null ==> bloom.counters[..] == Removed(bloom.f, old(bloom.counters[..]), m.hash)
    {
      hide Covers, Shows, Spares;
      if bloom == null {
        return;
      }
      ghost var cs := bloom.counters[..];
      if m.IsZero() {
        SparesZero(bloom.f, cs, m.hash, rest);
        ZeroNotHeld(bloom.f, cs, held, bs, ns);
        return;
      }
      if Shows(bloom.f, cs, rest) {
        RemoveShowsIff(bloom.f, cs, m.hash, rest);
      }
      NothingShown(bloom.f, Removed(bloom.f, cs, m.hash));
      if Counts(bs, ns) && m.hash in ns {
        CoversHeld(bloom.f, cs, held, bs, ns, m.hash);
      }
      if m.hash in held {
        if Counts(bs, ns) {
          RemoveCovers(bloom.f, cs, held, bs, ns, m.hash);
        }
        held := Drop(held, IndexOf(held, m.hash));
      }
      bloom.Remove(m.hash);
    }

    /** Put accepts exactly the non-zero MIDs whose payload hashes to them; then the block namespace holds that payload,
        and the write is stamped. */
    method Put(m: Mid, data: Bytes, now: nat) returns (r: Result<(), StoreError>)
      requires Usable() && data in universe
      modifies Footprint()
      ensures Usable() && closed == old(closed) && nodes == old(nodes)
      ensures r == Verdict(closed, env, m, data)
      ensures blocks == if r.Ok? then old(blocks)[m.hash := data] else old(blocks)
      ensures stamps == if r.Ok? then old(stamps)[m := now] else old(stamps)
      ensures files == (if r.Ok? then Filed(onDisk, old(files), m, data) else old(files)) && objects == old(objects)
      ensures bloom != null && r.Ok? ==> bloom.counters[..] == Added(bloom.f, old(bloom.counters[..]), m.hash)
      ensures old(Valid()) ==> Valid()
      ensures old(Sighted()) ==> Sighted()
    {
      hide DiskOk, Counts, Passes, Added;
      r := Check(m, data);
      if r.Err? {
        return;
      }
      ghost var bs, ns := blocks.Keys, nodes.Keys;
      WriteBlock(m, data, now);
      AddToFilter(m, bs, ns);
    }

    /** The disk part of Put. */
    method WriteBlock(m: Mid, data: Bytes, now: nat)
      requires DiskOk() && data in universe && !m.IsZero() && env.digest(data) == m.hash
      modifies this`blockDb, this`files, this`stamps, this`blocks
      ensures DiskOk() && blocks == old(blocks)[m.hash := data] && stamps == old(stamps)[m := now]
      ensures files == Filed(onDisk, old(files), m, data)
      ensures blocks.Keys == old(blocks.Keys) + {m.hash}
      ensures blocks.Keys + nodes.Keys == old(blocks.Keys + nodes.Keys) + {m.hash}
    {
      hide Side, Marker, FilesOk, Env.CollisionFree;
      SidePut(env, universe, onDisk, blockDb, blocks, m, data);
      FilesPut(env, universe, onDisk, files, m, data);
      if onDisk && |data| >= LARGE {
        files := files[m := data];
        blockDb := blockDb[m.hash := Marker(|data|)];
      } else {
        blockDb := blockDb[m.hash := data];
      }
      stamps := stamps[m := now];
      blocks := blocks[m.hash := data];
    }

    /** PutDAG does the same in the DAG namespace. */
    method PutDAG(m: Mid, data: Bytes, now: nat) returns (r: Result<(), StoreError>)
      requires Usable() && data in universe
      modifies Footprint()
      ensures Usable() && closed == old(closed) && blocks == old(blocks)
      ensures r == Verdict(closed, env, m, data)
      ensures nodes == if r.Ok? then old(nodes)[m.hash := data] else old(nodes)
      ensures stamps == if r.Ok? then old(stamps)[m := now] else old(stamps)
      ensures files == (if r.Ok? then Filed(onDisk, old(files), m, data) else old(files)) && objects == old(objects)
      ensures bloom != null && r.Ok? ==> bloom.counters[..] == Added(bloom.f, old(bloom.counters[..]), m.hash)
      ensures old(Valid()) ==> Valid()
      ensures old(Sighted()) ==> Sighted()
    {
      hide DiskOk, Counts, Passes, Added;
      r := Check(m, data);
      if r.Err? {
        return;
      }
      ghost var bs, ns := blocks.Keys, nodes.Keys;
      WriteNode(m, data, now);
      AddToFilter(m, bs, ns);
    }

    /** The disk part of PutDAG. */
    method WriteNode(m: Mid, data: Bytes, now: nat)
      requires DiskOk() && data in universe && !m.IsZero() && env.digest(data) == m.hash
      modifies this`dagDb, this`files, this`stamps, this`nodes
      ensures DiskOk() && nodes == old(nodes)[m.hash := data] && stamps == old(stamps)[m := now]
      ensures files == Filed(onDisk, old(files), m, data)
      ensures nodes.Keys == old(nodes.Keys) + {m.hash}
      ensures blocks.Keys + nodes.Keys == old(blocks.Keys + nodes.Keys) + {m.hash}
    {
      hide Side, Marker, FilesOk, Env.CollisionFree;
      SidePut(env, universe, onDisk, dagDb, nodes, m, data);
      FilesPut(env, universe, onDisk, files, m, data);
      if onDisk && |data| >= LARGE {
        files := files[m := data];
        dagDb := dagDb[m.hash := Marker(|data|)];
      } else {
        dagDb := dagDb[m.hash := data];
      }
      stamps := stamps[m := now];
      nodes := nodes[m.hash := data];
    }

    method Check(m: Mid, data: Bytes) returns (r: Result<(), StoreError>)
      ensures r == Verdict(closed, env, m, data)
    {
      if closed {
        return Err(Closed);
      }
      if m.IsZero() {
        return Err(ZeroMid);
      }
      if env.digest(data) != m.hash {
        return Err(BadContent);
      }
      return Ok(());
    }

    /** PutBatch is all or nothing on the map: every block acceptable and all applied in order, or an error and no
        change (large files written before the bad block stay behind, harmlessly). */
    method PutBatch(batch: seq<Block>, now: nat) returns (r: Result<(), StoreError>)
      requires Usable() && forall b :: b in batch ==> b.data in universe
      modifies Footprint()
      ensures Usable() && closed == old(closed) && nodes == old(nodes)
      ensures batch != [] && closed ==> r == Err(Closed)
      ensures batch == [] || !closed ==> (r.Ok? <==> forall i :: 0 <= i < |batch| ==> Acceptable(env, batch[i]))
      ensures blocks == if r.Ok? then Applied(old(blocks), batch) else old(blocks)
      ensures stamps == if r.Ok? then Stamped(old(stamps), batch, now) else old(stamps)
      ensures files == if closed then old(files) else FiledAll(onDisk, old(files), batch[..GoodPrefix(env, batch)])
      ensures objects == old(objects)
      ensures old(Valid()) ==> Valid()
      ensures old(Sighted()) ==> Sighted()
    {
      hide DiskOk, Side, Counts, Passes, Applied, Stamped, FiledAll, GoodPrefix, Acceptable;
      NothingApplied(blocks, stamps, files, onDisk, batch, now);
      assert batch == [] ==> GoodPrefix(env, batch) == 0 && batch[..0] == [];
      if |batch| == 0 {
        return Ok(());
      }
      if closed {
        return Err(Closed);
      }
      var db, ts;
      ghost var staged;
      r, db, ts, staged := StageAll(batch, now);
      if r.Ok? {
        AllNonZero(env, batch);
        stamps := ts;
        r := Commit(db, staged, batch);
      }
    }

    /** The loop over a batch: every block is checked and staged, until one is not acceptable. */
    method StageAll(batch: seq<Block>, now: nat)
        returns (r: Result<(), StoreError>, db: map<Bytes, Bytes>, ts: map<Mid, nat>, ghost staged: map<Bytes, Bytes>)
      requires DiskOk() && forall b :: b in batch ==> b.data in universe
      modifies this`files
      ensures DiskOk() && (r.Ok? <==> forall i :: 0 <= i < |batch| ==> Acceptable(env, batch[i]))
      ensures r.Ok? ==>
        && Side(env, universe, onDisk, db, staged)
        && staged == Applied(blocks, batch) && ts == Stamped(stamps, batch, now)
      ensures files == FiledAll(onDisk, old(files), batch[..GoodPrefix(env, batch)])
    {
      hide DiskOk, Side, Applied, Stamped, FiledAll, GoodPrefix, Acceptable;
      db, ts, staged := blockDb, stamps, blocks;
      BlockSide();
      NothingApplied(blocks, stamps, files, onDisk, batch, now);
      var i := 0;
      while i < |batch|
        invariant 0 <= i <= |batch| && DiskOk() && Side(env, universe, onDisk, db, staged)
        invariant files == FiledAll(onDisk, old(files), batch[..i])
        invariant staged == Applied(blocks, batch[..i]) && ts == Stamped(stamps, batch[..i], now)
        invariant forall j :: 0 <= j < i ==> Acceptable(env, batch[j])
      {
        var m, data := batch[i].mid, batch[i].data;
        assert batch[i] in batch;
        OneApplied(env, blocks, stamps, old(files), onDisk, batch, now, i);
        PrefixEnds(env, batch, i);
        if m.IsZero() {
          r := Err(ZeroMid);
          return;
        }
        if env.digest(data) != m.hash {
          r := Err(BadContent);
          return;
        }
        db := Stage(m, data, db, staged);
        staged, ts := staged[m.hash := data], ts[m := now];
        i := i + 1;
      }
      assert batch[..i] == batch;
      r := Ok(());
    }

    lemma BlockSide()
      requires DiskOk()
      ensures Side(env, universe, onDisk, blockDb, blocks)
    {
    }

    /** One block of a batch: a large one is written to its file at once, the key waits for the commit. */
    method Stage(m: Mid, data: Bytes, db: map<Bytes, Bytes>, ghost staged: map<Bytes, Bytes>) returns (next: map<Bytes, Bytes>)
      requires DiskOk() && !m.IsZero() && data in universe && env.digest(data) == m.hash
      requires Side(env, universe, onDisk, db, staged)
      modifies this`files
      ensures DiskOk() && Side(env, universe, onDisk, next, staged[m.hash := data]) && files == Filed(onDisk, old(files), m, data)
    {
      hide Side, Marker;
      SidePut(env, universe, onDisk, db, staged, m, data);
      FilesPut(env, universe, onDisk, files, m, data);
      if onDisk && |data| >= LARGE {
        files := files[m := data];
        next := db[m.hash := Marker(|data|)];
      } else {
        next := db[m.hash := data];
      }
    }

    /** The committed batch becomes the database, then every key is added to the filter. */
    method Commit(db: map<Bytes, Bytes>, ghost staged: map<Bytes, Bytes>, batch: seq<Block>) returns (r: Result<(), StoreError>)
      requires Usable()
      requires Side(env, universe, onDisk, db, staged) && staged == Applied(blocks, batch)
      requires forall i :: 0 <= i < |batch| ==> batch[i].mid.hash != []
      modifies this`blockDb, this`blocks, this`held, Filter()
      ensures Usable() && r == Ok(()) && blocks == staged
      ensures old(Valid()) ==> Valid()
      ensures old(Sighted()) ==> Sighted()
    {
      hide Side, Counts, Passes, Applied;
      ghost var base, ns := blocks, nodes.Keys;
      blockDb := db;
      blocks := staged;
      NothingApplied(base, map[], map[], onDisk, batch, 0);
      var i := 0;
      while i < |batch|
        invariant 0 <= i <= |batch| && blocks == staged && DiskOk() && Passes({})
        invariant old(Valid()) ==> Counts(Applied(base, batch[..i]).Keys, ns)
        invariant old(Sighted()) ==> Passes(Applied(base, batch[..i]).Keys + ns)
      {
        AppliedKeys(base, batch, i, ns);
        AddToFilter(batch[i].mid, Applied(base, batch[..i]).Keys, ns);
        i := i + 1;
      }
      assert batch[..i] == batch;
      return Ok(());
    }

    /** `maybeTest`. */
    method MaybeTest(m: Mid) returns (maybe: bool)
      requires Passes({})
      ensures maybe <==> m.IsZero() || Passes({m.hash})
    {
      if bloom == null || m.IsZero() {
        return true;
      }
      maybe := bloom.Test(m.hash);
    }

    /** Get returns the payload of the plain map, wherever the bytes sit, unless the filter denies the key. */
    method Get(m: Mid) returns (r: Result<Bytes, StoreError>)
      requires Usable()
      ensures r == (if closed then Err(Closed) else if m.IsZero() then Err(ZeroMid)
                    else if m.hash in Plain() && Passes({m.hash}) then Ok(Served(onDisk, files, m, Plain()[m.hash]))
                    else Err(NotFound))
      ensures Sighted() && !closed && !m.IsZero() && m.hash in Plain() ==> r == Ok(Served(onDisk, files, m, Plain()[m.hash]))
    {
      hide Side;
      if closed {
        return Err(Closed);
      }
      if m.IsZero() {
        return Err(ZeroMid);
      }
      var maybe := MaybeTest(m);
      if !maybe {
        return Err(NotFound);
      }
      ReadBackServes(env, universe, onDisk, blockDb, files, blocks, m);
      ReadBackServes(env, universe, onDisk, dagDb, files, nodes, m);
      if m.hash in blockDb {
        return Ok(ReadBack(onDisk, blockDb[m.hash], files, m));
      }
      if m.hash in dagDb {
        return Ok(ReadBack(onDisk, dagDb[m.hash], files, m));
      }
      return Err(NotFound);
    }

    /** GetDAG reads the DAG namespace only, and asks no filter. */
    method GetDAG(m: Mid) returns (r: Result<Bytes, StoreError>)
      requires Usable()
      ensures r == (if closed then Err(Closed) else if m.IsZero() then Err(ZeroMid)
                    else if m.hash in nodes then Ok(Served(onDisk, files, m, nodes[m.hash])) else Err(NotFound))
    {
      hide Side;
      if closed {
        return Err(Closed);
      }
      if m.IsZero() {
        return Err(ZeroMid);
      }
      ReadBackServes(env, universe, onDisk, dagDb, files, nodes, m);
      if m.hash !in dagDb {
        return Err(NotFound);
      }
      return Ok(ReadBack(onDisk, dagDb[m.hash], files, m));
    }

    /** Has agrees with the plain map for any codec, unless the filter denies the key. */
    method Has(m: Mid) returns (r: Result<bool, StoreError>)
      requires Usable()
      ensures r == (if closed then Err(Closed) else if m.IsZero() then Err(ZeroMid)
                    else Ok(m.hash in Plain() && Passes({m.hash})))
      ensures Sighted() && !closed && !m.IsZero() ==> r == Ok(m.hash in Plain())
    {
      hide FilesOk;
      if closed {
        return Err(Closed);
      }
      if m.IsZero() {
        return Err(ZeroMid);
      }
      var maybe := MaybeTest(m);
      if !maybe {
        return Ok(false);
      }
      if m.hash in blockDb {
        return Ok(true);
      }
      return Ok(m.hash in dagDb);
    }

    method HasDAG(m: Mid) returns (r: Result<bool, StoreError>)
      requires Usable()
      ensures r == (if closed then Err(Closed) else if m.IsZero() then Err(ZeroMid)
                    else Ok(m.hash in nodes && Passes({m.hash})))
      ensures Sighted() && !closed && !m.IsZero() ==> r == Ok(m.hash in nodes)
    {
      hide FilesOk;
      if closed {
        return Err(Closed);
      }
      if m.IsZero() {
        return Err(ZeroMid);
      }
      var maybe := MaybeTest(m);
      if !maybe {
        return Ok(false);
      }
      return Ok(m.hash in dagDb);
    }

    /** Delete removes the key from both namespaces, and its file and stamp. The filter is decremented without looking.
        A held key leaves the store valid; in general no remaining key is denied exactly when the decrement spares the
        buckets of the remaining keys. */
    method Delete(m: Mid) returns (r: Result<(), StoreError>)
      requires Usable()
      modifies Footprint()
      ensures Usable() && closed == old(closed)
      ensures r == if closed then Err(Closed) else Ok(())
      ensures blocks == if closed then old(blocks) else old(blocks) - {m.hash}
      ensures nodes == if closed then old(nodes) else old(nodes) - {m.hash}
      ensures stamps == if closed then old(stamps) else old(stamps) - {m}
      ensures files == if closed then old(files) else Unfiled(onDisk, old(files), m)
      ensures objects == if closed then old(objects) else old(objects) - {m}
      ensures closed && old(Valid()) ==> Valid()
      ensures closed && old(Sighted()) ==> Sighted()
      ensures old(Valid()) && (bloom == null || m.IsZero() || m.hash in old(held)) ==> Valid()
      ensures old(Valid()) && m.hash in old(Plain()) ==> Valid()
      ensures !closed && bloom != null ==> bloom.counters[..] == Removed(bloom.f, old(bloom.counters[..]), m.hash)
      ensures !closed && old(Sighted()) ==>
        (Sighted() <==> bloom == null || Spares(bloom.f, old(bloom.counters[..]), m.hash, Plain().Keys))
    {
      hide DiskOk, Counts, Passes, Spares, Removed;
      if closed {
        return Err(Closed);
      }
      ghost var bs, ns := blocks.Keys, nodes.Keys;
      DropKey(m);
      CountedIsHeld(bs, ns, m.hash);
      FewerPass(bs + ns, Plain().Keys);
      RemoveFromFilter(m, bs, ns, Plain().Keys);
      ZeroKey(bs, ns, m);
      return Ok(());
    }

    /** The disk part of Delete. */
    method DropKey(m: Mid)
      requires DiskOk()
      modifies this`blockDb, this`dagDb, this`files, this`stamps, this`objects, this`blocks, this`nodes
      ensures DiskOk() && blocks == old(blocks) - {m.hash} && nodes == old(nodes) - {m.hash} && stamps == old(stamps) - {m}
      ensures files == Unfiled(onDisk, old(files), m) && objects == old(objects) - {m}
      ensures blocks.Keys == old(blocks.Keys) - {m.hash} && nodes.Keys == old(nodes.Keys) - {m.hash}
      ensures blocks.Keys + nodes.Keys == Plain().Keys <= old(blocks.Keys + nodes.Keys)
    {
      hide Side, FilesOk, Env.CollisionFree;
      SideDelete(env, universe, onDisk, blockDb, blocks, m.hash);
      SideDelete(env, universe, onDisk, dagDb, nodes, m.hash);
      FilesDrop(env, universe, files, {m});
      blockDb, dagDb, stamps, objects := blockDb - {m.hash}, dagDb - {m.hash}, stamps - {m}, objects - {m};
      if onDisk {
        files := files - {m};
      }
      blocks, nodes := blocks - {m.hash}, nodes - {m.hash};
    }

    /** DeleteDAG removes the key from the DAG namespace only, but also the flat file it shares with the block namespace:
        a large block under the same MID then reads as its length. */
    method DeleteDAG(m: Mid) returns (r: Result<(), StoreError>)
      requires Usable()
      modifies Footprint()
      ensures Usable() && closed == old(closed) && blocks == old(blocks)
      ensures r == if closed then Err(Closed) else Ok(())
      ensures nodes == if closed then old(nodes) else old(nodes) - {m.hash}
      ensures stamps == if closed then old(stamps) else old(stamps) - {m}
      ensures files == if closed then old(files) else Unfiled(onDisk, old(files), m)
      ensures objects == if closed then old(objects) else old(objects) - {m}
      ensures closed && old(Valid()) ==> Valid()
      ensures old(Valid()) && m.hash in old(nodes) ==> Valid()
      ensures !closed && old(Sighted()) ==>
        (Sighted() <==> bloom == null || Spares(bloom.f, old(bloom.counters[..]), m.hash, Plain().Keys))
    {
      hide DiskOk, Counts, Passes, Spares, Removed;
      if closed {
        return Err(Closed);
      }
      ghost var bs, ns := blocks.Keys, nodes.Keys;
      DropNode(m);
      FewerPass(bs + ns, Plain().Keys);
      RemoveFromFilter(m, bs, ns, Plain().Keys);
      return Ok(());
    }

    /** The disk part of DeleteDAG. */
    method DropNode(m: Mid)
      requires DiskOk()
      modifies this`dagDb, this`files, this`stamps, this`objects, this`nodes
      ensures DiskOk() && nodes == old(nodes) - {m.hash} && stamps == old(stamps) - {m} && nodes.Keys == old(nodes.Keys) - {m.hash}
      ensures files == Unfiled(onDisk, old(files), m) && objects == old(objects) - {m}
      ensures blocks.Keys + nodes.Keys == Plain().Keys <= old(blocks.Keys + nodes.Keys)
    {
      hide Side, FilesOk, Env.CollisionFree;
      SideDelete(env, universe, onDisk, dagDb, nodes, m.hash);
      FilesDrop(env, universe, files, {m});
      dagDb, stamps, objects := dagDb - {m.hash}, stamps - {m}, objects - {m};
      if onDisk {
        files := files - {m};
      }
      nodes := nodes - {m.hash};
    }

    lemma CountedIsHeld(bs: set<Bytes>, ns: set<Bytes>, h: Bytes)
      ensures Counts(bs, ns) && bloom != null && (h in bs || h in ns) ==> h in held
    {
      if Counts(bs, ns) && bloom != null && (h in bs || h in ns) {
        CoversHeld(bloom.f, bloom.counters[..], held, bs, ns, h);
      }
    }

    lemma FewerPass(keys: set<Bytes>, fewer: set<Bytes>)
      requires fewer <= keys
      ensures Passes(keys) ==> Passes(fewer)
    {
    }

    lemma ZeroKey(bs: set<Bytes>, ns: set<Bytes>, m: Mid)
      ensures m.IsZero() && Counts(bs, ns) ==> Counts(bs - {m.hash}, ns - {m.hash})
    {
      if bloom != null && Counts(bs, ns) {
        CoversFewer(bloom.f, bloom.counters[..], held, bs, ns, bs - {m.hash}, ns - {m.hash});
      }
    }

    /** Close hands the filter to the snapshot file; the disk keeps the maps, so Open can start from both. */
    method Close() returns (snapshot: Option<Snapshot>)
      requires Usable()
      modifies this`closed
      ensures Usable() && closed
      ensures old(Valid()) ==> Valid()
      ensures old(Valid()) && snapshot.Some? ==> Exact(snapshot.value.f, snapshot.value.counters, held)
      ensures snapshot.None? <==> old(closed) || bloom == null
    {
      if closed {
        return None;
      }
      closed := true;
      if bloom == null {
        return None;
      }
      return Some(Snapshot(bloom.f, bloom.count, bloom.counters[..]));
    }
  }

  lemma NothingApplied(contents: map<Bytes, Bytes>, stamps: map<Mid, nat>, files: map<Mid, Bytes>, onDisk: bool, batch: seq<Block>, now: nat)
    ensures Applied(contents, batch[..0]) == contents && Stamped(stamps, batch[..0], now) == stamps
    ensures FiledAll(onDisk, files, batch[..0]) == files
    ensures batch == [] ==> Applied(contents, batch) == contents && Stamped(stamps, batch, now) == stamps
  {
  }

  lemma OneApplied(env: Env, contents: map<Bytes, Bytes>, stamps: map<Mid, nat>, files: map<Mid, Bytes>, onDisk: bool,
                   batch: seq<Block>, now: nat, i: nat)
    requires i < |batch|
    ensures Applied(contents, batch[..i + 1]) == Applied(contents, batch[..i])[batch[i].mid.hash := batch[i].data]
    ensures Stamped(stamps, batch[..i + 1], now) == Stamped(stamps, batch[..i], now)[batch[i].mid := now]
    ensures FiledAll(onDisk, files, batch[..i + 1]) == Filed(onDisk, FiledAll(onDisk, files, batch[..i]), batch[i].mid, batch[i].data)
    ensures Acceptable(env, batch[i]) <==> !batch[i].mid.IsZero() && env.digest(batch[i].data) == batch[i].mid.hash
  {
    assert batch[..i + 1][..i] == batch[..i];
  }

  lemma PrefixEnds(env: Env, batch: seq<Block>, i: nat)
    requires i < |batch| && forall j :: 0 <= j < i ==> Acceptable(env, batch[j])
    ensures !Acceptable(env, batch[i]) ==> GoodPrefix(env, batch) == i
  {
    hide Acceptable;
  }

  lemma AllNonZero(env: Env, batch: seq<Block>)
    requires forall i :: 0 <= i < |batch| ==> Acceptable(env, batch[i])
    ensures forall i :: 0 <= i < |batch| ==> batch[i].mid.hash != []
  {
  }

  lemma AppliedKeys(contents: map<Bytes, Bytes>, batch: seq<Block>, i: nat, others: set<Bytes>)
    requires i < |batch|
    ensures
      var keys, next := Applied(contents, batch[..i]).Keys, Applied(contents, batch[..i + 1]).Keys;
      next == keys + {batch[i].mid.hash} && next + others == keys + others + {batch[i].mid.hash}
  {
    assert batch[..i + 1][..i] == batch[..i];
  }

  lemma NothingShown(f: Shape, cs: Bytes)
    requires |cs| == f.m
    ensures Shows(f, cs, {})
  {
  }

  lemma SparesZero(f: Shape, cs: Bytes, x: Bytes, items: set<Bytes>)
    requires |cs| == f.m && x == []
    ensures Spares(f, cs, x, items)
  {
  }

  lemma ZeroNotHeld(f: Shape, cs: Bytes, held: seq<Bytes>, blocks: set<Bytes>, nodes: set<Bytes>)
    ensures Covers(f, cs, held, blocks, nodes) ==> [] !in held && [] !in blocks && [] !in nodes
  {
    if Covers(f, cs, held, blocks, nodes) {
      if [] in blocks || [] in nodes {
        CoversHeld(f, cs, held, blocks, nodes, []);
      }
    }
  }

  /** A store with a one-bucket filter that holds one block. */
  method OneBlockStore(env: Env, onDisk: bool, hash: Bytes -> (nat, nat), data: Bytes, now: nat) returns (s: MemStore)
    requires env.digest(data) != []
    ensures s.env == env && s.onDisk == onDisk && s.universe == {data}
    ensures s.stamps == map[env.FromBytes(data) := now] && s.files == Filed(onDisk, map[], env.FromBytes(data), data)
    ensures fresh(s) && s.bloom != null && fresh(s.bloom) && fresh(s.bloom.counters)
    ensures s.Sighted() && s.Usable() && !s.closed && s.blocks == map[env.digest(data) := data] && s.nodes == map[]
    ensures s.bloom.f == Shape(1, 1, hash)
    ensures s.bloom.counters[..] == Added(s.bloom.f, CountersAfter(s.bloom.f, []), env.digest(data))
  {
    hide Covers, Exact, Side, Added, CountersAfter, MemStore.Counts, MemStore.DiskOk, MemStore.Valid, MemStore.Sighted, MemStore.Usable;
    EmptyDisk(env, {data});
    s := new MemStore.Open(env, onDisk, {data}, map[], map[], map[], map[], map[], Some(Shape(1, 1, hash)), None, map[], map[], []);
    s.ValidIsSighted();
    var put := s.Put(env.FromBytes(data), data, now);
  }

  /** Deleting a MID the store never had can hide one it has: with a one-bucket filter, whatever the hash. The deleted
      MID is not in the map, the other one is, and Has denies it. */
  method StrayDeleteHidesHeld(env: Env, hash: Bytes -> (nat, nat), data: Bytes, stray: Mid, now: nat)
      returns (s: MemStore, before: Result<bool, StoreError>, after: Result<bool, StoreError>)
    requires env.digest(data) != [] && !stray.IsZero() && stray.hash != env.digest(data)
    ensures s.Usable() && env.digest(data) in s.Plain() && s.Plain()[env.digest(data)] == data
    ensures before == Ok(true) && after == Ok(false)
  {
    hide Covers, Exact, Side, Added, Removed, CountersAfter, Spares;
    var m := env.FromBytes(data);
    s := OneBlockStore(env, false, hash, data, now);
    before := s.Has(m);
    var deleted := s.Delete(stray);
    after := s.Has(m);
    StrayCounters(hash, m.hash, stray.hash);
  }

  lemma StrayCounters(hash: Bytes -> (nat, nat), h: Bytes, stray: Bytes)
    requires h != [] && stray != []
    ensures
      var f := Shape(1, 1, hash);
      !Tests(f, Removed(f, Added(f, CountersAfter(f, []), h), stray), h)
  {
    var f := Shape(1, 1, hash);
    OneBucket(hash, h);
    OneBucket(hash, stray);
    assert Added(f, CountersAfter(f, []), h) == [1];
    assert Removed(f, [1], stray) == [0];
  }

  lemma EmptyDisk(env: Env, universe: set<Bytes>)
    requires |universe| <= 1
    ensures env.CollisionFree(universe) && FilesOk(env, universe, map[]) && forall onDisk :: Side(env, universe, onDisk, map[], map[])
  {
    var files: map<Mid, Bytes>, contents: map<Bytes, Bytes> := map[], map[];
    assert files.Values == {} && contents.Values == {};
    forall x, y | x in universe && y in universe ensures x == y {
      assert |universe - {x}| == 0;
    }
  }
}
