/** Whole runs of the hybrid store, restarts included: exactly what is answered, and when that is what plain maps answer. */
module StoreRun {
  import opened Common
  import opened CountingBloom
  import opened StoreDisk
  import opened HybridStore

  /** One request; `Restart` closes the store and opens it again, with or without the filter snapshot. */
  datatype Op =
    | Put(m: Mid, data: Bytes)
    | PutBatch(batch: seq<Block>)
    | PutDAG(m: Mid, data: Bytes)
    | Get(m: Mid)
    | GetDAG(m: Mid)
    | Has(m: Mid)
    | HasDAG(m: Mid)
    | Delete(m: Mid)
    | DeleteDAG(m: Mid)
    | Restart(shape: Shape, snapshotKept: bool)

  datatype Answer = Wrote(ok: bool) | Payload(data: Result<Bytes, StoreError>) | Present(has: Result<bool, StoreError>)

  /** What the store stands for: the block and the DAG namespace as plain maps, and which large payloads have a file. */
  datatype Maps = Maps(blocks: map<Bytes, Bytes>, nodes: map<Bytes, Bytes>, files: map<Mid, Bytes>)

  /** The maps after a request. */
  ghost function After(env: Env, onDisk: bool, maps: Maps, op: Op): Maps {
    match op
    case Put(m, data) =>
      if Acceptable(env, Block(m, data))
      then maps.(blocks := maps.blocks[m.hash := data], files := Filed(onDisk, maps.files, m, data)) else maps
    case PutBatch(batch) =>
      Maps(if AllAcceptable(env, batch) then Applied(maps.blocks, batch) else maps.blocks, maps.nodes,
           FiledAll(onDisk, maps.files, batch[..GoodPrefix(env, batch)]))
    case PutDAG(m, data) =>
      if Acceptable(env, Block(m, data))
      then maps.(nodes := maps.nodes[m.hash := data], files := Filed(onDisk, maps.files, m, data)) else maps
    case Delete(m) => Maps(maps.blocks - {m.hash}, maps.nodes - {m.hash}, Unfiled(onDisk, maps.files, m))
    case DeleteDAG(m) => maps.(nodes := maps.nodes - {m.hash}, files := Unfiled(onDisk, maps.files, m))
    case _ => maps
  }

  predicate AllAcceptable(env: Env, batch: seq<Block>) { forall i :: 0 <= i < |batch| ==> Acceptable(env, batch[i]) }

  function Lookup(onDisk: bool, files: map<Mid, Bytes>, contents: map<Bytes, Bytes>, m: Mid): Answer {
    Payload(if m.IsZero() then Err(ZeroMid) else if m.hash in contents then Ok(Served(onDisk, files, m, contents[m.hash])) else Err(NotFound))
  }

  function Member(contents: map<Bytes, Bytes>, m: Mid): Answer {
    Present(if m.IsZero() then Err(ZeroMid) else Ok(m.hash in contents))
  }

  /** What is answered; Get and Has look into both namespaces, blocks first. */
  ghost function Reply(env: Env, onDisk: bool, maps: Maps, op: Op): Answer {
    match op
    case Put(m, data) => Wrote(Acceptable(env, Block(m, data)))
    case PutBatch(batch) => Wrote(AllAcceptable(env, batch))
    case PutDAG(m, data) => Wrote(Acceptable(env, Block(m, data)))
    case Get(m) => Lookup(onDisk, maps.files, maps.nodes + maps.blocks, m)
    case GetDAG(m) => Lookup(onDisk, maps.files, maps.nodes, m)
    case Has(m) => Member(maps.nodes + maps.blocks, m)
    case HasDAG(m) => Member(maps.nodes, m)
    case Delete(_) => Wrote(true)
    case DeleteDAG(_) => Wrote(true)
    case Restart(_, _) => Wrote(true)
  }

  /** Payloads in play, and deletes only of keys that are held: others may hide a key that is there. */
  ghost predicate Allowed(universe: set<Bytes>, maps: Maps, op: Op) {
    match op
    case Put(_, data) => data in universe
    case PutBatch(batch) => forall b :: b in batch ==> b.data in universe
    case PutDAG(_, data) => data in universe
    case Delete(m) => m.hash in maps.blocks || m.hash in maps.nodes
    case DeleteDAG(m) => m.hash in maps.nodes
    case _ => true
  }

  ghost function AfterAll(env: Env, onDisk: bool, maps: Maps, ops: seq<Op>): Maps {
    if ops == [] then maps else After(env, onDisk, AfterAll(env, onDisk, maps, ops[..|ops| - 1]), ops[|ops| - 1])
  }

  ghost function Replies(env: Env, onDisk: bool, maps: Maps, ops: seq<Op>): seq<Answer> {
    if ops == [] then []
    else
      var n := |ops| - 1;
      Replies(env, onDisk, maps, ops[..n]) + [Reply(env, onDisk, AfterAll(env, onDisk, maps, ops[..n]), ops[n])]
  }

  lemma RunStep(env: Env, onDisk: bool, maps: Maps, ops: seq<Op>, i: nat)
    requires i < |ops|
    ensures AfterAll(env, onDisk, maps, ops[..i + 1]) == After(env, onDisk, AfterAll(env, onDisk, maps, ops[..i]), ops[i])
    ensures Replies(env, onDisk, maps, ops[..i + 1])
         == Replies(env, onDisk, maps, ops[..i]) + [Reply(env, onDisk, AfterAll(env, onDisk, maps, ops[..i]), ops[i])]
  {
    assert ops[..i + 1][..i] == ops[..i];
  }

  ghost predicate AllAllowed(env: Env, onDisk: bool, universe: set<Bytes>, maps: Maps, ops: seq<Op>) {
    forall i :: 0 <= i < |ops| ==> Allowed(universe, AfterAll(env, onDisk, maps, ops[..i]), ops[i])
  }

  lemma RunNothing(env: Env, onDisk: bool, maps: Maps, ops: seq<Op>)
    ensures AfterAll(env, onDisk, maps, ops[..0]) == maps && Replies(env, onDisk, maps, ops[..0]) == []
  {
  }

  ghost predicate SameKind(s: MemStore, t: MemStore) {
    t.env == s.env && t.onDisk == s.onDisk && t.universe == s.universe
  }

  /** An open store in a valid state that stands for these maps. */
  ghost predicate Serves(s: MemStore, maps: Maps)
    reads s, s.Filter()
  {
    s.Valid() && !s.closed && s.blocks == maps.blocks && s.nodes == maps.nodes && s.files == maps.files
  }

  method Reopen(s: MemStore, shape: Shape, snapshotKept: bool) returns (t: MemStore)
    requires s.Valid() && !s.closed
    modifies s`closed
    ensures fresh(t) && (t.bloom != null ==> fresh(t.bloom) && fresh(t.bloom.counters))
    ensures SameKind(s, t) && Serves(t, Maps(old(s.blocks), old(s.nodes), old(s.files)))
  {
    hide Side, Exact, Covers, Shows;
    s.ValidIsSighted();
    var snapshot := s.Close();
    if !snapshotKept {
      snapshot := None;
    }
    t := new MemStore.Open(s.env, s.onDisk, s.universe, s.blockDb, s.dagDb, s.files, s.stamps, s.objects,
                           if s.bloom == null then None else Some(shape), snapshot,
                           s.blocks, s.nodes, if snapshot.Some? then s.held else []);
  }

  /** The requests that change nothing. */
  method Ask(s: MemStore, op: Op, ghost maps: Maps) returns (a: Answer)
    requires op.Get? || op.GetDAG? || op.Has? || op.HasDAG?
    requires Serves(s, maps) && Allowed(s.universe, maps, op)
    ensures a == Reply(s.env, s.onDisk, maps, op)
  {
    hide Side, Covers, Shows;
    s.ValidIsSighted();
    match op {
      case Get(m) =>
        var r := s.Get(m);
        a := Payload(r);
      case GetDAG(m) =>
        var r := s.GetDAG(m);
        a := Payload(r);
      case Has(m) =>
        var r := s.Has(m);
        a := Present(r);
      case HasDAG(m) =>
        var r := s.HasDAG(m);
        a := Present(r);
    }
  }

  method Exec(s: MemStore, op: Op, now: nat, ghost maps: Maps) returns (t: MemStore, a: Answer)
    requires Serves(s, maps) && Allowed(s.universe, maps, op)
    modifies s.Footprint()
    ensures t == s || (fresh(t) && (t.bloom != null ==> fresh(t.bloom) && fresh(t.bloom.counters)))
    ensures SameKind(s, t) && Serves(t, After(s.env, s.onDisk, maps, op)) && a == Reply(s.env, s.onDisk, maps, op)
  {
    hide MemStore.Valid, MemStore.Sighted, MemStore.Usable, MemStore.DiskOk;
    s.ValidIsSighted();
    t := s;
    match op {
      case Put(m, data) =>
        var r := s.Put(m, data, now);
        a := Wrote(r.Ok?);
      case PutBatch(batch) =>
        var r := s.PutBatch(batch, now);
        a := Wrote(r.Ok?);
      case PutDAG(m, data) =>
        var r := s.PutDAG(m, data, now);
        a := Wrote(r.Ok?);
      case Delete(m) =>
        var r := s.Delete(m);
        a := Wrote(r.Ok?);
      case DeleteDAG(m) =>
        var r := s.DeleteDAG(m);
        a := Wrote(r.Ok?);
      case Restart(shape, kept) =>
        t := Reopen(s, shape, kept);
        a := Wrote(true);
      case _ =>
        a := Ask(s, op, maps);
    }
  }

  /** Over every run of requests and restarts the store answers, and ends up, exactly as specified. */
  method Run(s: MemStore, ops: seq<Op>, now: nat, ghost maps: Maps) returns (t: MemStore, answers: seq<Answer>)
    requires Serves(s, maps) && AllAllowed(s.env, s.onDisk, s.universe, maps, ops)
    modifies s.Footprint()
    ensures SameKind(s, t) && Serves(t, AfterAll(s.env, s.onDisk, maps, ops))
    ensures answers == Replies(s.env, s.onDisk, maps, ops)
  {
    hide After, Reply, Replies, AfterAll, Allowed, Serves;
    t, answers := s, [];
    RunNothing(s.env, s.onDisk, maps, ops);
    var i := 0;
    while i < |ops|
      invariant 0 <= i <= |ops|
      invariant t == s || (fresh(t) && (t.bloom != null ==> fresh(t.bloom) && fresh(t.bloom.counters)))
      invariant SameKind(s, t) && Serves(t, AfterAll(s.env, s.onDisk, maps, ops[..i]))
      invariant answers == Replies(s.env, s.onDisk, maps, ops[..i])
    {
      RunStep(s.env, s.onDisk, maps, ops, i);
      var a;
      t, a := Exec(t, ops[i], now, AfterAll(s.env, s.onDisk, maps, ops[..i]));
      answers := answers + [a];
      i := i + 1;
    }
    assert ops[..i] == ops;
  }

  // -------------------------------------------------------- plain maps

  /** The same run on two plain maps, without files. */
  datatype Plain = Plain(blocks: map<Bytes, Bytes>, nodes: map<Bytes, Bytes>)

  ghost function PlainAfter(env: Env, maps: Plain, op: Op): Plain {
    match op
    case Put(m, data) => if Acceptable(env, Block(m, data)) then maps.(blocks := maps.blocks[m.hash := data]) else maps
    case PutBatch(batch) => if AllAcceptable(env, batch) then maps.(blocks := Applied(maps.blocks, batch)) else maps
    case PutDAG(m, data) => if Acceptable(env, Block(m, data)) then maps.(nodes := maps.nodes[m.hash := data]) else maps
    case Delete(m) => Plain(maps.blocks - {m.hash}, maps.nodes - {m.hash})
    case DeleteDAG(m) => maps.(nodes := maps.nodes - {m.hash})
    case _ => maps
  }

  function Find(contents: map<Bytes, Bytes>, m: Mid): Answer {
    Payload(if m.IsZero() then Err(ZeroMid) else if m.hash in contents then Ok(contents[m.hash]) else Err(NotFound))
  }

  ghost function PlainReply(env: Env, maps: Plain, op: Op): Answer {
    match op
    case Put(m, data) => Wrote(Acceptable(env, Block(m, data)))
    case PutBatch(batch) => Wrote(AllAcceptable(env, batch))
    case PutDAG(m, data) => Wrote(Acceptable(env, Block(m, data)))
    case Get(m) => Find(maps.nodes + maps.blocks, m)
    case GetDAG(m) => Find(maps.nodes, m)
    case Has(m) => Member(maps.nodes + maps.blocks, m)
    case HasDAG(m) => Member(maps.nodes, m)
    case _ => Wrote(true)
  }

  ghost function PlainAll(env: Env, maps: Plain, ops: seq<Op>): Plain {
    if ops == [] then maps else PlainAfter(env, PlainAll(env, maps, ops[..|ops| - 1]), ops[|ops| - 1])
  }

  ghost function PlainReplies(env: Env, maps: Plain, ops: seq<Op>): seq<Answer> {
    if ops == [] then []
    else
      var n := |ops| - 1;
      PlainReplies(env, maps, ops[..n]) + [PlainReply(env, PlainAll(env, maps, ops[..n]), ops[n])]
  }

  /** One codec per multihash for what is written and read, and no DeleteDAG of the file a large block still needs. */
  ghost predicate Careful(onDisk: bool, codecOf: Bytes -> Codec, maps: Plain, op: Op) {
    match op
    case Put(m, _) => m.codec == codecOf(m.hash)
    case PutBatch(batch) => forall b :: b in batch ==> b.mid.codec == codecOf(b.mid.hash)
    case PutDAG(m, _) => m.codec == codecOf(m.hash)
    case Get(m) => m.codec == codecOf(m.hash)
    case GetDAG(m) => m.codec == codecOf(m.hash)
    case DeleteDAG(m) => !(onDisk && m.codec == codecOf(m.hash) && m.hash in maps.blocks && |maps.blocks[m.hash]| >= LARGE)
    case _ => true
  }

  ghost predicate AllCareful(env: Env, onDisk: bool, codecOf: Bytes -> Codec, maps: Plain, ops: seq<Op>) {
    forall i :: 0 <= i < |ops| ==> Careful(onDisk, codecOf, PlainAll(env, maps, ops[..i]), ops[i])
  }

  ghost predicate Complete(onDisk: bool, codecOf: Bytes -> Codec, maps: Maps) {
    AllFiled(onDisk, codecOf, maps.files, maps.blocks) && AllFiled(onDisk, codecOf, maps.files, maps.nodes)
  }

  function Forget(maps: Maps): Plain { Plain(maps.blocks, maps.nodes) }

  lemma {:induction false} BatchFiled(onDisk: bool, codecOf: Bytes -> Codec, files: map<Mid, Bytes>, contents: map<Bytes, Bytes>,
                                      others: map<Bytes, Bytes>, batch: seq<Block>)
    requires AllFiled(onDisk, codecOf, files, contents) && AllFiled(onDisk, codecOf, files, others)
    requires forall b :: b in batch ==> b.mid.codec == codecOf(b.mid.hash)
    ensures AllFiled(onDisk, codecOf, FiledAll(onDisk, files, batch), Applied(contents, batch))
    ensures AllFiled(onDisk, codecOf, FiledAll(onDisk, files, batch), others)
    ensures AllFiled(onDisk, codecOf, FiledAll(onDisk, files, batch), contents)
  {
    if batch != [] {
      var n := |batch| - 1;
      BatchFiled(onDisk, codecOf, files, contents, others, batch[..n]);
      assert batch[n] in batch;
    }
  }

  lemma WriteFiled(onDisk: bool, codecOf: Bytes -> Codec, files: map<Mid, Bytes>, contents: map<Bytes, Bytes>, m: Mid, data: Bytes)
    requires AllFiled(onDisk, codecOf, files, contents) && m.codec == codecOf(m.hash)
    ensures AllFiled(onDisk, codecOf, Filed(onDisk, files, m, data), contents)
    ensures AllFiled(onDisk, codecOf, Filed(onDisk, files, m, data), contents[m.hash := data])
  {
  }

  lemma DropFiled(onDisk: bool, codecOf: Bytes -> Codec, files: map<Mid, Bytes>, contents: map<Bytes, Bytes>, m: Mid)
    requires AllFiled(onDisk, codecOf, files, contents)
    ensures AllFiled(onDisk, codecOf, Unfiled(onDisk, files, m), contents - {m.hash})
    ensures !(onDisk && m.codec == codecOf(m.hash) && m.hash in contents && |contents[m.hash]| >= LARGE) ==>
      AllFiled(onDisk, codecOf, Unfiled(onDisk, files, m), contents)
  {
  }

  lemma StepFiled(env: Env, onDisk: bool, codecOf: Bytes -> Codec, maps: Maps, op: Op)
    requires Complete(onDisk, codecOf, maps) && Careful(onDisk, codecOf, Forget(maps), op)
    ensures Complete(onDisk, codecOf, After(env, onDisk, maps, op))
  {
    hide AllFiled, Applied, FiledAll, Filed, Unfiled, Acceptable;
    match op {
      case Put(m, data) =>
        WriteFiled(onDisk, codecOf, maps.files, maps.blocks, m, data);
        WriteFiled(onDisk, codecOf, maps.files, maps.nodes, m, data);
      case PutDAG(m, data) =>
        WriteFiled(onDisk, codecOf, maps.files, maps.blocks, m, data);
        WriteFiled(onDisk, codecOf, maps.files, maps.nodes, m, data);
      case PutBatch(batch) =>
        var n := GoodPrefix(env, batch);
        assert forall b :: b in batch[..n] ==> b in batch;
        BatchFiled(onDisk, codecOf, maps.files, maps.blocks, maps.nodes, batch[..n]);
        assert n == |batch| ==> batch[..n] == batch;
      case Delete(m) =>
        DropFiled(onDisk, codecOf, maps.files, maps.blocks, m);
        DropFiled(onDisk, codecOf, maps.files, maps.nodes, m);
      case DeleteDAG(m) =>
        DropFiled(onDisk, codecOf, maps.files, maps.blocks, m);
        DropFiled(onDisk, codecOf, maps.files, maps.nodes, m);
      case _ =>
    }
  }

  /** One request: with care nobody notices the files. */
  lemma PlainStep(env: Env, onDisk: bool, codecOf: Bytes -> Codec, maps: Maps, op: Op)
    requires Complete(onDisk, codecOf, maps) && Careful(onDisk, codecOf, Forget(maps), op)
    ensures Forget(After(env, onDisk, maps, op)) == PlainAfter(env, Forget(maps), op)
    ensures Complete(onDisk, codecOf, After(env, onDisk, maps, op))
    ensures Reply(env, onDisk, maps, op) == PlainReply(env, Forget(maps), op)
  {
    hide Complete, AllFiled, Applied, FiledAll, Filed, Unfiled, Acceptable, Served;
    StepFiled(env, onDisk, codecOf, maps, op);
    if op.Get? || op.GetDAG? {
      Found(onDisk, codecOf, maps, op.m);
    }
  }

  lemma Found(onDisk: bool, codecOf: Bytes -> Codec, maps: Maps, m: Mid)
    requires Complete(onDisk, codecOf, maps) && m.codec == codecOf(m.hash)
    ensures m.hash in maps.blocks ==> Served(onDisk, maps.files, m, maps.blocks[m.hash]) == maps.blocks[m.hash]
    ensures m.hash in maps.nodes ==> Served(onDisk, maps.files, m, maps.nodes[m.hash]) == maps.nodes[m.hash]
  {
    assert m == Mid(codecOf(m.hash), m.hash);
  }

  /** With care, a run answers as two plain maps do, and ends up holding them. */
  lemma {:induction false} CarefulRunIsPlain(env: Env, onDisk: bool, codecOf: Bytes -> Codec, maps: Maps, ops: seq<Op>)
    requires Complete(onDisk, codecOf, maps) && AllCareful(env, onDisk, codecOf, Forget(maps), ops)
    ensures Replies(env, onDisk, maps, ops) == PlainReplies(env, Forget(maps), ops)
    ensures Forget(AfterAll(env, onDisk, maps, ops)) == PlainAll(env, Forget(maps), ops)
    ensures Complete(onDisk, codecOf, AfterAll(env, onDisk, maps, ops))
  {
    hide Complete, Careful, After, Reply, PlainAfter, PlainReply, Forget;
    if ops != [] {
      var n := |ops| - 1;
      var front := ops[..n];
      forall i | 0 <= i < n ensures Careful(onDisk, codecOf, PlainAll(env, Forget(maps), front[..i]), front[i]) {
        assert front[..i] == ops[..i];
      }
      CarefulRunIsPlain(env, onDisk, codecOf, maps, front);
      PlainStep(env, onDisk, codecOf, AfterAll(env, onDisk, maps, front), ops[n]);
    }
  }

  /** Without care: once DeleteDAG has dropped the file that a large block shares with a node, Get serves the block's
      length. */
  lemma SharedFileIsLost(env: Env, maps: Maps, m: Mid)
    requires !m.IsZero() && m.hash in maps.blocks && m.hash in maps.nodes && |maps.blocks[m.hash]| >= LARGE
    ensures Reply(env, true, After(env, true, maps, DeleteDAG(m)), Get(m)) == Payload(Ok(Marker(|maps.blocks[m.hash]|)))
    ensures PlainReply(env, PlainAfter(env, Forget(maps), DeleteDAG(m)), Get(m)) == Payload(Ok(maps.blocks[m.hash]))
    ensures Marker(|maps.blocks[m.hash]|) != maps.blocks[m.hash]
  {
  }
}
