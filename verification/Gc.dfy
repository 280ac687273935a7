/** core/store/seal.go and gc_tracker.go: mark-and-sweep over the block and DAG namespaces. Durations and the clock are
    in seconds; no write overlaps a run, so the tracker's active buffer stays empty. */
module Gc {
  import opened Common
  import opened MemfsBuild
  import opened StoreWalk

  const GRACE := 300
  const PREFIX_LEN := 3
  const BATCH := 1000

  /** A seal record: the codec of the sealed MID and whether it was written for a child of a recursive seal. */
  datatype Seal = Seal(codec: Codec, child: bool)

  /** Metadata GC reads and never changes. */
  datatype Records = Records(seals: map<Bytes, Seal>, stamps: map<Mid, nat>, manifests: map<Mid, seq<Mid>>)

  /** Direct seals; records whose key is no multihash are skipped. */
  function Roots(dec: Decoders, meta: Records): set<Mid> {
    set h | h in meta.seals.Keys && dec.fs.env.envelope(h) && !meta.seals[h].child :: Mid(meta.seals[h].codec, h)
  }

  function Shards(meta: Records, m: Mid): seq<Mid> { if m in meta.manifests then meta.manifests[m] else [] }

  function Hashes(ms: seq<Mid>): set<Bytes> { set m | m in ms :: m.hash }

  // --------------------------------------------------------------- age

  /** Commit time recorded under the raw-codec MID of a key; 0 when there is none. */
  function RawStamp(meta: Records, h: Bytes): nat {
    if Mid(CODEC_RAW, h) in meta.stamps then meta.stamps[Mid(CODEC_RAW, h)] else 0
  }

  function EffectiveGrace(minAge: int): int { if minAge == 0 then 0 else if minAge < GRACE then minAge else GRACE }

  /** `IsProtected`, with an empty active buffer. */
  predicate IsProtected(meta: Records, h: Bytes, minAge: int, now: int) {
    || h == []
    || (var ts := RawStamp(meta, h);
        ts > 0 && ts >= now - EffectiveGrace(minAge) && EffectiveGrace(minAge) > 0)
  }

  predicate TooYoung(meta: Records, h: Bytes, minAge: int, now: int) {
    minAge > 0 && now - minAge > 0 && RawStamp(meta, h) >= now - minAge
  }

  predicate Spared(env: Env, meta: Records, h: Bytes, minAge: int, now: int) {
    env.envelope(h) && (IsProtected(meta, h, minAge, now) || TooYoung(meta, h, minAge, now))
  }

  /** Age spares an unreachable, well-formed key exactly when its raw-codec stamp is within minAge; with minAge 0 never. A
      minAge that reaches back before 1970 counts as five minutes. */
  lemma SparedIff(env: Env, meta: Records, h: Bytes, minAge: int, now: int)
    requires h != [] && now > 300
    ensures Spared(env, meta, h, minAge, now) <==>
      && env.envelope(h) && minAge > 0
      && Mid(0x55, h) in meta.stamps && meta.stamps[Mid(0x55, h)] >= now - (if minAge < now then minAge else 300)
  {
  }

  /** The promise "only blocks older than minAge are deleted" fails for every other codec: such a block is stamped
      under its own MID, which the sweep never looks up, so it is not spared however fresh it is. */
  lemma FreshMemfsBlockIsNotSpared(env: Env, meta: Records, h: Bytes, minAge: int, now: int)
    requires h != [] && 0 < minAge < now && now > 300
    requires Mid(CODEC_MEMFS, h) in meta.stamps && meta.stamps[Mid(CODEC_MEMFS, h)] == now
    requires Mid(CODEC_RAW, h) !in meta.stamps
    ensures !Spared(env, meta, h, minAge, now)
  {
  }

  // -------------------------------------------------------------- marks

  /** A key that must survive: a sealed root, something the walk reaches from one, or a shard of its manifest. */
  ghost predicate LiveFrom(dec: Decoders, view: BlockMap, meta: Records, r: Mid, h: Bytes) {
    h == r.hash || exists x :: Reach(dec, view, r, x) && Supports(meta, x, h)
  }

  ghost predicate Supports(meta: Records, x: Mid, h: Bytes) {
    h == x.hash || h in Hashes(Shards(meta, x))
  }

  ghost predicate Live(dec: Decoders, view: BlockMap, meta: Records, h: Bytes) {
    exists r :: r in Roots(dec, meta) && LiveFrom(dec, view, meta, r, h)
  }

  /** Every sealed DAG is complete in the store. */
  ghost predicate AllComplete(dec: Decoders, view: BlockMap, meta: Records) {
    forall r :: r in Roots(dec, meta) ==> !r.IsZero() && Complete(dec, view, r)
  }

  /** Keys marked for these calls of the walk: the MID itself and the shards in its erasure manifest. */
  function CallMarks(meta: Records, order: seq<Visit>): set<Bytes> {
    if order == [] then {}
    else
      var n := |order| - 1;
      CallMarks(meta, order[..n]) + {order[n].m.hash} + Hashes(Shards(meta, order[n].m))
  }

  /** What marking one root marks: the root, and whatever the walk calls for before it ends or fails. */
  ghost function RootMarks(dec: Decoders, view: BlockMap, meta: Records, root: Mid): set<Bytes> {
    {root.hash} + CallMarks(meta, WalkFrom(dec, view, root).order)
  }

  ghost function Marks(dec: Decoders, view: BlockMap, meta: Records): set<Bytes> {
    set r, h | r in Roots(dec, meta) && !r.IsZero() && h in RootMarks(dec, view, meta, r) :: h
  }

  lemma {:induction false} CallMarksMember(meta: Records, order: seq<Visit>, h: Bytes)
    ensures h in CallMarks(meta, order) <==> exists i :: 0 <= i < |order| && Supports(meta, order[i].m, h)
  {
    hide Shards, Hashes;
    if order != [] {
      var n := |order| - 1;
      CallMarksMember(meta, order[..n], h);
      if h in CallMarks(meta, order[..n]) {
        var i :| 0 <= i < n && Supports(meta, order[..n][i].m, h);
        assert Supports(meta, order[i].m, h);
      }
      if i :| 0 <= i < |order| && Supports(meta, order[i].m, h) {
        assert i < n ==> Supports(meta, order[..n][i].m, h);
      }
    }
  }

  /** Marks are live; and a complete root marks everything live from it, whatever the other seals are. */
  lemma RootMarksAreLive(dec: Decoders, view: BlockMap, meta: Records, root: Mid, h: Bytes)
    ensures h in RootMarks(dec, view, meta, root) ==> LiveFrom(dec, view, meta, root, h)
    ensures Complete(dec, view, root) && LiveFrom(dec, view, meta, root, h) ==> h in RootMarks(dec, view, meta, root)
  {
    hide Reach, Complete, Supports, WalkFrom;
    WalkIsClosure(dec, view, root);
    var order := WalkFrom(dec, view, root).order;
    CallMarksMember(meta, order, h);
    if i :| 0 <= i < |order| && Supports(meta, order[i].m, h) {
      assert Listed(order, order[i].m);
    }
    if Complete(dec, view, root) && LiveFrom(dec, view, meta, root, h) && h != root.hash {
      var x :| Reach(dec, view, root, x) && Supports(meta, x, h);
      assert Listed(order, x);
    }
  }

  /** With complete sealed DAGs the marks are exactly the live keys. */
  lemma MarksAreLive(dec: Decoders, view: BlockMap, meta: Records)
    ensures forall h :: h in Marks(dec, view, meta) ==> Live(dec, view, meta, h)
    ensures AllComplete(dec, view, meta) ==> forall h :: h in Marks(dec, view, meta) <==> Live(dec, view, meta, h)
  {
    hide LiveFrom, Complete, RootMarks, Roots;
    forall r, h | r in Roots(dec, meta)
      ensures h in RootMarks(dec, view, meta, r) ==> LiveFrom(dec, view, meta, r, h)
      ensures Complete(dec, view, r) && LiveFrom(dec, view, meta, r, h) ==> h in RootMarks(dec, view, meta, r)
    {
      RootMarksAreLive(dec, view, meta, r, h);
    }
  }

  /** Marking one root; a failed walk is ignored and leaves the marks made so far. */
  method MarkRoot(dec: Decoders, view: BlockMap, meta: Records, root: Mid) returns (marks: set<Bytes>)
    requires !root.IsZero()
    ensures marks == RootMarks(dec, view, meta, root)
  {
    hide WalkFrom, Shards, Hashes;
    marks := {root.hash};
    var order, ok := Walk(dec, view, root);
    var i := 0;
    while i < |order|
      invariant 0 <= i <= |order| && marks == {root.hash} + CallMarks(meta, order[..i])
    {
      assert order[..i + 1][..i] == order[..i];
      marks := marks + {order[i].m.hash} + Hashes(Shards(meta, order[i].m));
      i := i + 1;
    }
    assert order[..i] == order;
  }

  /** The mark phase, over all direct seals. */
  method Mark(dec: Decoders, view: BlockMap, meta: Records) returns (marks: set<Bytes>)
    ensures marks == Marks(dec, view, meta)
  {
    hide RootMarks, Roots;
    marks := {};
    var todo := Roots(dec, meta);
    ghost var done: set<Mid> := {};
    while todo != {}
      invariant done + todo == Roots(dec, meta)
      invariant forall h :: h in marks <==> exists r :: r in done && !r.IsZero() && h in RootMarks(dec, view, meta, r)
      decreases |todo|
    {
      var root :| root in todo;
      if !root.IsZero() {
        var m := MarkRoot(dec, view, meta, root);
        marks := marks + m;
      }
      todo, done := todo - {root}, done + {root};
    }
  }

  // -------------------------------------------------------------- sweep

  ghost predicate Keeps(env: Env, marks: set<Bytes>, meta: Records, minAge: int, now: int, h: Bytes) {
    h in marks || Spared(env, meta, h, minAge, now)
  }

  /** The part of a namespace the sweep keeps. */
  ghost function Swept(env: Env, ns: BlockMap, marks: set<Bytes>, meta: Records, minAge: int, now: int): BlockMap {
    map h | h in ns && Keeps(env, marks, meta, minAge, now, h) :: ns[h]
  }

  lemma MinusMinus(m: BlockMap, a: set<Bytes>, b: set<Bytes>)
    ensures m - a - b == m - (a + b) && m - {} == m
  {
  }

  /** The keys looked at so far are doomed exactly when nothing keeps them. */
  ghost predicate Judged(env: Env, ns: BlockMap, keys: set<Bytes>, doomed: set<Bytes>, marks: set<Bytes>, meta: Records, minAge: int, now: int) {
    && keys <= ns.Keys && doomed <= ns.Keys - keys
    && forall h :: h in ns.Keys - keys ==> (h in doomed <==> !Keeps(env, marks, meta, minAge, now, h))
  }

  lemma JudgeOne(env: Env, ns: BlockMap, keys: set<Bytes>, doomed: set<Bytes>, marks: set<Bytes>, meta: Records, minAge: int, now: int, k: Bytes)
    requires Judged(env, ns, keys, doomed, marks, meta, minAge, now) && k in keys
    ensures Judged(env, ns, keys - {k}, if Keeps(env, marks, meta, minAge, now, k) then doomed else doomed + {k}, marks, meta, minAge, now)
  {
    hide Keeps;
  }

  lemma JudgedOnce(env: Env, ns: BlockMap, keys: set<Bytes>, doomed: set<Bytes>, marks: set<Bytes>, meta: Records, minAge: int, now: int, k: Bytes)
    requires Judged(env, ns, keys, doomed, marks, meta, minAge, now) && k in keys
    ensures k in ns && k !in doomed
  {
  }

  lemma JudgedAll(env: Env, ns: BlockMap, doomed: set<Bytes>, marks: set<Bytes>, meta: Records, minAge: int, now: int)
    requires Judged(env, ns, {}, doomed, marks, meta, minAge, now)
    ensures ns - doomed == Swept(env, ns, marks, meta, minAge, now)
    ensures doomed == {} <==> ns - doomed == ns
  {
    hide Keeps;
    if doomed != {} {
      var h :| h in doomed;
      assert h in ns && h !in ns - doomed;
    }
  }

  /** A 64-bit counter. */
  function Wrap64(n: int): (r: nat) { n % TWO64 }

  lemma WrapAdd(a: int, b: int)
    ensures Wrap64(Wrap64(a) + b) == Wrap64(a + b) && Wrap64(a) < TWO64
    ensures 0 <= a < TWO64 ==> Wrap64(a) == a
  {
  }

  /** Sweeping one namespace in batches: exactly the kept keys remain, with their values, and the 64-bit counter grows by
      what is reported for the rest. */
  method Sweep(env: Env, ns: BlockMap, marks: set<Bytes>, meta: Records, minAge: int, now: int, sizeOf: Bytes -> nat, before: nat)
      returns (out: BlockMap, freed: nat)
    requires before < TWO64
    ensures out == Swept(env, ns, marks, meta, minAge, now)
    ensures freed == Counter(before, ns, out, sizeOf)
    ensures Occupied(out, sizeOf) <= Occupied(ns, sizeOf) && (Occupied(out, sizeOf) == Occupied(ns, sizeOf) <==> out == ns)
  {
    hide Sweeping, Spared, Occupied, Wrap64, Swept, Counter;
    out, freed := ns, before;
    var keys: set<Bytes>, batch: set<Bytes> := ns.Keys, {};
    ghost var doomed: set<Bytes> := {};
    SweepStart(env, ns, before, marks, meta, minAge, now, sizeOf);
    while keys != {}
      invariant Sweeping(env, ns, keys, doomed, out, batch, before, freed, marks, meta, minAge, now, sizeOf)
      decreases |keys|
    {
      var k :| k in keys;
      SweepOne(env, ns, keys, doomed, out, batch, before, freed, marks, meta, minAge, now, sizeOf, k);
      keys := keys - {k};
      if k in marks || Spared(env, meta, k, minAge, now) {
        continue;
      }
      batch, doomed := batch + {k}, doomed + {k};
      freed := Wrap64(freed + PREFIX_LEN + |k| + sizeOf(ns[k]));
      if |batch| >= BATCH {
        SweepCommit(env, ns, keys, doomed, out, batch, before, freed, marks, meta, minAge, now, sizeOf);
        out, batch := out - batch, {};
      }
    }
    SweepCommit(env, ns, keys, doomed, out, batch, before, freed, marks, meta, minAge, now, sizeOf);
    if batch != {} {
      out := out - batch;
    }
    SweepDone(env, ns, doomed, out, before, freed, marks, meta, minAge, now, sizeOf);
  }

  /** The counter after sweeping `ns` down to `out`. */
  ghost function Counter(before: nat, ns: BlockMap, out: BlockMap, sizeOf: Bytes -> nat): nat {
    Wrap64(before + Occupied(ns, sizeOf) - Occupied(out, sizeOf))
  }

  lemma CounterTwice(b: BlockMap, b': BlockMap, d: BlockMap, d': BlockMap, sizeOf: Bytes -> nat)
    ensures Counter(0, b, b', sizeOf) < TWO64
    ensures Counter(Counter(0, b, b', sizeOf), d, d', sizeOf)
         == Wrap64(Occupied(b, sizeOf) + Occupied(d, sizeOf) - (Occupied(b', sizeOf) + Occupied(d', sizeOf)))
  {
    hide Wrap64, Occupied;
    WrapAdd(Occupied(b, sizeOf) - Occupied(b', sizeOf), Occupied(d, sizeOf) - Occupied(d', sizeOf));
  }

  /** The sweep with `keys` still to look at, and `batch` to delete. */
  ghost predicate Sweeping(env: Env, ns: BlockMap, keys: set<Bytes>, doomed: set<Bytes>, out: BlockMap, batch: set<Bytes>, before: nat,
                           freed: nat, marks: set<Bytes>, meta: Records, minAge: int, now: int, sizeOf: Bytes -> nat) {
    && Judged(env, ns, keys, doomed, marks, meta, minAge, now)
    && Pending(ns, doomed, out, batch)
    && Counted(ns, sizeOf, doomed, before, freed)
  }

  lemma SweepStart(env: Env, ns: BlockMap, before: nat, marks: set<Bytes>, meta: Records, minAge: int, now: int, sizeOf: Bytes -> nat)
    requires before < TWO64
    ensures Sweeping(env, ns, ns.Keys, {}, ns, {}, before, before, marks, meta, minAge, now, sizeOf)
  {
    hide Judged, Pending, Counted;
    JudgeNone(env, ns, marks, meta, minAge, now);
    PendNone(ns);
    CountNone(ns, sizeOf, before);
  }

  lemma SweepOne(env: Env, ns: BlockMap, keys: set<Bytes>, doomed: set<Bytes>, out: BlockMap, batch: set<Bytes>, before: nat,
                 freed: nat, marks: set<Bytes>, meta: Records, minAge: int, now: int, sizeOf: Bytes -> nat, k: Bytes)
    requires k in keys && Sweeping(env, ns, keys, doomed, out, batch, before, freed, marks, meta, minAge, now, sizeOf)
    ensures k in ns
    ensures
      if k in marks || Spared(env, meta, k, minAge, now)
      then Sweeping(env, ns, keys - {k}, doomed, out, batch, before, freed, marks, meta, minAge, now, sizeOf)
      else Sweeping(env, ns, keys - {k}, doomed + {k}, out, batch + {k}, before, Wrap64(freed + PREFIX_LEN + |k| + sizeOf(ns[k])),
                    marks, meta, minAge, now, sizeOf)
  {
    hide Judged, Pending, Counted, Spared, Wrap64;
    JudgedOnce(env, ns, keys, doomed, marks, meta, minAge, now, k);
    JudgeOne(env, ns, keys, doomed, marks, meta, minAge, now, k);
    PendOne(ns, doomed, out, batch, k);
    CountOne(ns, sizeOf, doomed, before, freed, k);
  }

  lemma SweepCommit(env: Env, ns: BlockMap, keys: set<Bytes>, doomed: set<Bytes>, out: BlockMap, batch: set<Bytes>, before: nat,
                    freed: nat, marks: set<Bytes>, meta: Records, minAge: int, now: int, sizeOf: Bytes -> nat)
    requires Sweeping(env, ns, keys, doomed, out, batch, before, freed, marks, meta, minAge, now, sizeOf)
    ensures Sweeping(env, ns, keys, doomed, out - batch, {}, before, freed, marks, meta, minAge, now, sizeOf)
    ensures batch == {} ==> out - batch == out
  {
    hide Judged, Counted;
    PendDone(ns, doomed, out, batch);
  }

  lemma SweepDone(env: Env, ns: BlockMap, doomed: set<Bytes>, out: BlockMap, before: nat, freed: nat, marks: set<Bytes>, meta: Records,
                  minAge: int, now: int, sizeOf: Bytes -> nat)
    requires Sweeping(env, ns, {}, doomed, out, {}, before, freed, marks, meta, minAge, now, sizeOf)
    ensures out == Swept(env, ns, marks, meta, minAge, now)
    ensures freed == Counter(before, ns, out, sizeOf)
    ensures Occupied(out, sizeOf) <= Occupied(ns, sizeOf) && (Occupied(out, sizeOf) == Occupied(ns, sizeOf) <==> out == ns)
  {
    hide Judged, Swept, Occupied, Wrap64;
    PendDone(ns, doomed, out, {});
    JudgedAll(env, ns, doomed, marks, meta, minAge, now);
  }

  /** What is deleted once the batch is committed. */
  ghost predicate Pending(ns: BlockMap, doomed: set<Bytes>, out: BlockMap, batch: set<Bytes>) { out - batch == ns - doomed }

  lemma PendNone(ns: BlockMap)
    ensures Pending(ns, {}, ns, {})
  {
  }

  lemma PendOne(ns: BlockMap, doomed: set<Bytes>, out: BlockMap, batch: set<Bytes>, k: Bytes)
    requires Pending(ns, doomed, out, batch)
    ensures Pending(ns, doomed + {k}, out, batch + {k})
  {
    MinusMinus(out, batch, {k});
    MinusMinus(ns, doomed, {k});
  }

  lemma PendDone(ns: BlockMap, doomed: set<Bytes>, out: BlockMap, batch: set<Bytes>)
    requires Pending(ns, doomed, out, batch)
    ensures out - batch == ns - doomed && Pending(ns, doomed, out - batch, {}) && (batch == {} ==> out == ns - doomed)
  {
    MinusMinus(out - batch, {}, {});
    MinusMinus(out, {}, {});
  }

  /** The counter while `doomed` is being deleted. */
  ghost predicate Counted(ns: BlockMap, sizeOf: Bytes -> nat, doomed: set<Bytes>, before: nat, freed: nat) {
    && freed == Wrap64(before + Occupied(ns, sizeOf) - Occupied(ns - doomed, sizeOf)) < TWO64
    && Occupied(ns - doomed, sizeOf) <= Occupied(ns, sizeOf)
    && (Occupied(ns - doomed, sizeOf) == Occupied(ns, sizeOf) <==> doomed == {})
  }

  lemma CountNone(ns: BlockMap, sizeOf: Bytes -> nat, before: nat)
    requires before < TWO64
    ensures Counted(ns, sizeOf, {}, before, before)
  {
    hide Occupied;
    MinusMinus(ns, {}, {});
  }

  lemma CountOne(ns: BlockMap, sizeOf: Bytes -> nat, doomed: set<Bytes>, before: nat, freed: nat, k: Bytes)
    requires Counted(ns, sizeOf, doomed, before, freed) && k in ns && k !in doomed
    ensures Counted(ns, sizeOf, doomed + {k}, before, Wrap64(freed + PREFIX_LEN + |k| + sizeOf(ns[k])))
  {
    hide Occupied, Wrap64;
    MinusMinus(ns, doomed, {k});
    OccupiedWithout(ns - doomed, sizeOf, k);
    WrapAdd(before + Occupied(ns, sizeOf) - Occupied(ns - doomed, sizeOf), PREFIX_LEN + |k| + sizeOf(ns[k]));
    WrapAdd(freed + PREFIX_LEN + |k| + sizeOf(ns[k]), 0);
  }

  /** Bytes reported for a namespace, keys included; `sizeOf` says what is reported for a stored value. */
  ghost function Occupied(ns: BlockMap, sizeOf: Bytes -> nat): nat {
    if ns == map[] then 0
    else
      var k :| k in ns;
      Cost(ns, sizeOf, k) + Occupied(ns - {k}, sizeOf)
  }

  function Cost(ns: BlockMap, sizeOf: Bytes -> nat, k: Bytes): nat
    requires k in ns
  {
    PREFIX_LEN + |k| + sizeOf(ns[k])
  }

  lemma {:induction false} OccupiedWithout(ns: BlockMap, sizeOf: Bytes -> nat, k: Bytes)
    requires k in ns
    ensures Occupied(ns, sizeOf) == Cost(ns, sizeOf, k) + Occupied(ns - {k}, sizeOf)
    decreases |ns|
  {
    var first :| first in ns && Occupied(ns, sizeOf) == Cost(ns, sizeOf, first) + Occupied(ns - {first}, sizeOf);
    if first == k {
      assert ns - {first} == ns - {k};
    } else {
      OccupiedWithout(ns - {first}, sizeOf, k);
      OccupiedWithout(ns - {k}, sizeOf, first);
      assert ns - {first} - {k} == ns - {k} - {first};
      assert Cost(ns - {first}, sizeOf, k) == Cost(ns, sizeOf, k) && Cost(ns - {k}, sizeOf, first) == Cost(ns, sizeOf, first);
    }
  }

  lemma JudgeNone(env: Env, ns: BlockMap, marks: set<Bytes>, meta: Records, minAge: int, now: int)
    ensures Judged(env, ns, ns.Keys, {}, marks, meta, minAge, now)
  {
  }

  // ---------------------------------------------------------------- GC

  /** The store after a GC run: what is marked, and what is spared by age. */
  ghost function Collected(dec: Decoders, view: BlockMap, meta: Records, minAge: int, now: int): BlockMap {
    Swept(dec.fs.env, view, Marks(dec, view, meta), meta, minAge, now)
  }

  /** Without flat files the report counts the values themselves. */
  function PlainSize(): Bytes -> nat { (v: Bytes) => |v| }

  /** The size of a namespace, one entry at a time: three bytes of prefix, the key and the value. */
  lemma SizeAdds(ns: BlockMap, h: Bytes, d: Bytes)
    requires h !in ns
    ensures Occupied(map[], PlainSize()) == 0
    ensures Occupied(ns[h := d], PlainSize()) == 3 + |h| + |d| + Occupied(ns, PlainSize())
  {
    OccupiedWithout(ns[h := d], PlainSize(), h);
    assert ns[h := d] - {h} == ns;
  }

  /** The store kept wholly in Pebble. */
  class Store {
    const dec: Decoders
    const meta: Records
    var blockNs: BlockMap
    var dagNs: BlockMap

    constructor (dec: Decoders, meta: Records, blockNs: BlockMap, dagNs: BlockMap)
      ensures this.dec == dec && this.meta == meta && this.blockNs == blockNs && this.dagNs == dagNs
    {
      this.dec, this.meta, this.blockNs, this.dagNs := dec, meta, blockNs, dagNs;
    }

    /** What Get sees: the block namespace first, then the DAG namespace. */
    ghost function View(): BlockMap
      reads this
    {
      dagNs + blockNs
    }

    /** Bytes in both namespaces, keys included. */
    ghost function Size(): nat
      reads this
    {
      Occupied(blockNs, PlainSize()) + Occupied(dagNs, PlainSize())
    }

    /** GC keeps, in both namespaces, exactly the marked keys and those spared by age, with their values; what it
        reports as freed is what is gone, to 64 bits. */
    method GCWithMinAge(minAge: int, now: int) returns (freed: nat)
      modifies this
      ensures View() == Collected(dec, old(View()), meta, minAge, now)
      ensures blockNs == Swept(dec.fs.env, old(blockNs), Marks(dec, old(View()), meta), meta, minAge, now)
      ensures dagNs == Swept(dec.fs.env, old(dagNs), Marks(dec, old(View()), meta), meta, minAge, now)
      ensures KeptAsAccounted(dec, old(View()), meta, minAge, old(blockNs), blockNs)
      ensures KeptAsAccounted(dec, old(View()), meta, minAge, old(dagNs), dagNs)
      ensures freed == Wrap64(old(Size()) - Size()) && Size() <= old(Size())
      ensures Size() == old(Size()) <==> blockNs == old(blockNs) && dagNs == old(dagNs)
    {
      hide Marks, Spared, Occupied, Swept, Wrap64, Counter, KeptAsAccounted;
      SweptAsAccounted(dec, View(), meta, minAge, now, blockNs);
      SweptAsAccounted(dec, View(), meta, minAge, now, dagNs);
      var marks := Mark(dec, dagNs + blockNs, meta);
      SweptUnion(dec.fs.env, blockNs, dagNs, marks, meta, minAge, now);
      var b, d, freedB;
      b, freedB := Sweep(dec.fs.env, blockNs, marks, meta, minAge, now, PlainSize(), 0);
      CounterTwice(blockNs, b, dagNs, Swept(dec.fs.env, dagNs, marks, meta, minAge, now), PlainSize());
      d, freed := Sweep(dec.fs.env, dagNs, marks, meta, minAge, now, PlainSize(), freedB);
      blockNs, dagNs := b, d;
    }

    /** An immediate second run frees nothing, whether or not the sealed DAGs are complete. */
    method GCTwice(minAge: int, now: int) returns (freed: nat, again: nat)
      modifies this
      ensures again == 0
      ensures View() == Collected(dec, old(View()), meta, minAge, now)
    {
      hide KeptAsAccounted, Collected, Marks, Swept, Occupied;
      ghost var before, b, d := View(), blockNs, dagNs;
      freed := GCWithMinAge(minAge, now);
      SameMarks(dec, before, meta, minAge, now);
      SweptTwice(dec.fs.env, b, Marks(dec, before, meta), meta, minAge, now);
      SweptTwice(dec.fs.env, d, Marks(dec, before, meta), meta, minAge, now);
      again := GCWithMinAge(minAge, now);
    }
  }

  lemma SweptUnion(env: Env, b: BlockMap, d: BlockMap, marks: set<Bytes>, meta: Records, minAge: int, now: int)
    ensures Swept(env, d, marks, meta, minAge, now) + Swept(env, b, marks, meta, minAge, now)
         == Swept(env, d + b, marks, meta, minAge, now)
  {
    hide Keeps;
  }

  lemma SweptTwice(env: Env, ns: BlockMap, marks: set<Bytes>, meta: Records, minAge: int, now: int)
    ensures
      var once := Swept(env, ns, marks, meta, minAge, now);
      Swept(env, once, marks, meta, minAge, now) == once
  {
    hide Keeps;
  }

  // ------------------------------------------------ what GC guarantees

  /** A sealed root with a complete DAG keeps everything the walk reaches from it, and every shard in the manifests of
      what it reaches, for any minAge and whatever the other seals are. */
  lemma SealedSurvives(dec: Decoders, view: BlockMap, meta: Records, minAge: int, now: int, r: Mid, h: Bytes)
    requires r in Roots(dec, meta) && !r.IsZero() && Complete(dec, view, r)
    requires LiveFrom(dec, view, meta, r, h) && h in view
    ensures h in Collected(dec, view, meta, minAge, now) && Collected(dec, view, meta, minAge, now)[h] == view[h]
  {
    hide LiveFrom, Roots, Spared, Complete, RootMarks;
    RootMarksAreLive(dec, view, meta, r, h);
  }

  lemma VisitedIsMarked(dec: Decoders, view: BlockMap, meta: Records, root: Mid, x: Mid)
    requires x in WalkFrom(dec, view, root).visited && x.hash in view
    ensures x.hash in RootMarks(dec, view, meta, root)
  {
    hide Dfs;
    var w := WalkFrom(dec, view, root);
    WalkIsClosure(dec, view, root);
    assert Listed(w.order, x);
    var i :| 0 <= i < |w.order| && w.order[i].m == x;
    assert Supports(meta, w.order[i].m, x.hash);
    CallMarksMember(meta, w.order, x.hash);
  }

  /** Whatever the walk from a sealed root came to before it ended or failed survives, for any minAge and whatever the
      other seals are. */
  lemma VisitedSurvives(dec: Decoders, view: BlockMap, meta: Records, minAge: int, now: int, r: Mid, x: Mid)
    requires r in Roots(dec, meta) && !r.IsZero() && x in WalkFrom(dec, view, r).visited && x.hash in view
    ensures x.hash in Collected(dec, view, meta, minAge, now) && Collected(dec, view, meta, minAge, now)[x.hash] == view[x.hash]
  {
    hide Roots, Spared, WalkFrom, RootMarks;
    VisitedIsMarked(dec, view, meta, r, x);
  }

  /** With one seal and no manifests, that and the root's own key is all that is marked. */
  lemma OnlyVisitedMarked(dec: Decoders, view: BlockMap, meta: Records, root: Mid, h: Bytes)
    requires Roots(dec, meta) == {root} && meta.manifests == map[] && h in Marks(dec, view, meta)
    ensures h == root.hash || exists x :: x in WalkFrom(dec, view, root).visited && x.hash == h
  {
    hide Roots, WalkFrom;
    var order := WalkFrom(dec, view, root).order;
    assert h in RootMarks(dec, view, meta, root);
    if h != root.hash {
      CallMarksMember(meta, order, h);
      var i :| 0 <= i < |order| && Supports(meta, order[i].m, h);
      WalkIsClosure(dec, view, root);
      assert Listed(order, order[i].m);
    }
  }

  // ------------------------ what is kept, in terms of the records themselves

  /** The records hold a direct seal of this MID. */
  ghost predicate DirectSeal(dec: Decoders, meta: Records, r: Mid) {
    r.hash in meta.seals && meta.seals[r.hash] == Seal(r.codec, false) && dec.fs.env.envelope(r.hash) && r.hash != []
  }

  /** The erasure manifest of `x` lists a shard with this key. */
  ghost predicate Lists(meta: Records, x: Mid, g: Bytes) {
    x in meta.manifests && exists k :: 0 <= k < |meta.manifests[x]| && meta.manifests[x][k].hash == g
  }

  /** A key that a direct seal accounts for: the root's, that of something its walk came to before it ended or failed, or that
      of a shard listed for such a thing. */
  ghost predicate Accounted(dec: Decoders, view: BlockMap, meta: Records, g: Bytes) {
    exists r :: DirectSeal(dec, meta, r) && AccountedBy(dec, view, meta, r, g)
  }

  ghost predicate AccountedBy(dec: Decoders, view: BlockMap, meta: Records, r: Mid, g: Bytes) {
    g == r.hash || exists x :: x in WalkFrom(dec, view, r).visited && x.hash in view && (g == x.hash || Lists(meta, x, g))
  }

  lemma SupportsIff(meta: Records, x: Mid, g: Bytes)
    ensures Supports(meta, x, g) <==> g == x.hash || Lists(meta, x, g)
  {
    if x in meta.manifests && g in Hashes(meta.manifests[x]) {
      var m :| m in meta.manifests[x] && m.hash == g;
      var k :| 0 <= k < |meta.manifests[x]| && meta.manifests[x][k] == m;
    }
    if Lists(meta, x, g) {
      var k :| 0 <= k < |meta.manifests[x]| && meta.manifests[x][k].hash == g;
      assert meta.manifests[x][k] in meta.manifests[x];
    }
  }

  lemma RootMarksIff(dec: Decoders, view: BlockMap, meta: Records, r: Mid, g: Bytes)
    ensures g in RootMarks(dec, view, meta, r) <==> AccountedBy(dec, view, meta, r, g)
  {
    hide WalkFrom, Supports, Lists;
    var w := WalkFrom(dec, view, r);
    WalkIsClosure(dec, view, r);
    CallMarksMember(meta, w.order, g);
    forall x: Mid ensures Supports(meta, x, g) <==> g == x.hash || Lists(meta, x, g) {
      SupportsIff(meta, x, g);
    }
    if i :| 0 <= i < |w.order| && Supports(meta, w.order[i].m, g) {
      assert Listed(w.order, w.order[i].m);
    }
    if x :| x in w.visited && x.hash in view && (g == x.hash || Lists(meta, x, g)) {
      assert Listed(w.order, x);
      var i :| 0 <= i < |w.order| && w.order[i].m == x;
      assert Supports(meta, w.order[i].m, g);
    }
  }

  /** Exactly the keys accounted for are marked. */
  lemma MarkedIff(dec: Decoders, view: BlockMap, meta: Records, g: Bytes)
    ensures g in Marks(dec, view, meta) <==> Accounted(dec, view, meta, g)
  {
    hide RootMarks, AccountedBy;
    forall r: Mid ensures g in RootMarks(dec, view, meta, r) <==> AccountedBy(dec, view, meta, r, g) {
      RootMarksIff(dec, view, meta, r, g);
    }
    forall r: Mid ensures r in Roots(dec, meta) && !r.IsZero() <==> DirectSeal(dec, meta, r) {
    }
  }

  /** What is accounted for survives every run; the shards of a sealed manifest among it. */
  lemma AccountedSurvives(dec: Decoders, view: BlockMap, meta: Records, minAge: int, now: int, g: Bytes)
    requires Accounted(dec, view, meta, g) && g in view
    ensures g in Collected(dec, view, meta, minAge, now) && Collected(dec, view, meta, minAge, now)[g] == view[g]
  {
    hide Marks, Accounted, Spared;
    MarkedIff(dec, view, meta, g);
  }

  /** And nothing else does, but what was stamped under the raw codec within the minimum age. */
  lemma KeptIff(dec: Decoders, view: BlockMap, meta: Records, minAge: int, now: int, g: Bytes)
    requires g != [] && now > 300
    ensures g in Collected(dec, view, meta, minAge, now) <==>
      && g in view
      && (|| Accounted(dec, view, meta, g)
          || (&& dec.fs.env.envelope(g) && minAge > 0
              && Mid(0x55, g) in meta.stamps && meta.stamps[Mid(0x55, g)] >= now - (if minAge < now then minAge else 300)))
  {
    hide Marks, Accounted, Spared;
    MarkedIff(dec, view, meta, g);
    SparedIff(dec.fs.env, meta, g, minAge, now);
  }

  /** The same for one namespace of a store, the marks coming from what the walk could see. */
  ghost predicate KeptAsAccounted(dec: Decoders, view: BlockMap, meta: Records, minAge: int, before: BlockMap, after: BlockMap) {
    && (forall g :: g in after ==> g in before && after[g] == before[g])
    && (forall g :: g in before && Accounted(dec, view, meta, g) ==> g in after)
    && (minAge == 0 ==> forall g :: g in after && g != [] ==> Accounted(dec, view, meta, g))
  }

  lemma SweptAsAccounted(dec: Decoders, view: BlockMap, meta: Records, minAge: int, now: int, before: BlockMap)
    ensures KeptAsAccounted(dec, view, meta, minAge, before, Swept(dec.fs.env, before, Marks(dec, view, meta), meta, minAge, now))
  {
    hide Marks, Accounted;
    forall g ensures g in Marks(dec, view, meta) <==> Accounted(dec, view, meta, g) {
      MarkedIff(dec, view, meta, g);
    }
  }

  /** The shard case by itself. */
  lemma ListedShardSurvives(dec: Decoders, view: BlockMap, meta: Records, minAge: int, now: int, r: Mid, x: Mid, k: nat)
    requires r.hash in meta.seals && meta.seals[r.hash] == Seal(r.codec, false) && dec.fs.env.envelope(r.hash) && r.hash != []
    requires x in WalkFrom(dec, view, r).visited && x.hash in view
    requires x in meta.manifests && k < |meta.manifests[x]| && meta.manifests[x][k].hash in view
    ensures
      var g, after := meta.manifests[x][k].hash, Collected(dec, view, meta, minAge, now);
      g in after && after[g] == view[g]
  {
    hide Collected, WalkFrom;
    var g := meta.manifests[x][k].hash;
    assert Lists(meta, x, g);
    assert AccountedBy(dec, view, meta, r, g);
    assert DirectSeal(dec, meta, r);
    AccountedSurvives(dec, view, meta, minAge, now, g);
  }

  /** With every sealed DAG complete, exactly the live keys and those spared by age are kept. */
  lemma CollectedIff(dec: Decoders, view: BlockMap, meta: Records, minAge: int, now: int, h: Bytes)
    requires AllComplete(dec, view, meta)
    ensures h in Collected(dec, view, meta, minAge, now)
       <==> h in view && (Live(dec, view, meta, h) || Spared(dec.fs.env, meta, h, minAge, now))
  {
    hide Live, Spared, AllComplete, Marks;
    MarksAreLive(dec, view, meta);
  }

  /** A run never changes what the walk does from a sealed root, complete or not: it visits the same MIDs in the same
      order and ends the same way. */
  lemma SameWalk(dec: Decoders, view: BlockMap, meta: Records, minAge: int, now: int, r: Mid)
    requires r in Roots(dec, meta) && !r.IsZero()
    ensures WalkFrom(dec, Collected(dec, view, meta, minAge, now), r) == WalkFrom(dec, view, r)
  {
    hide Roots, Spared, Dfs;
    var after := Collected(dec, view, meta, minAge, now);
    var w := WalkFrom(dec, view, r);
    WalkIsClosure(dec, view, r);
    forall x | x in w.visited && x.hash in view ensures x.hash in after {
      var i :| 0 <= i < |w.order| && w.order[i].m == x;
      assert Supports(meta, w.order[i].m, x.hash);
      CallMarksMember(meta, w.order, x.hash);
      assert x.hash in RootMarks(dec, view, meta, r);
    }
    UniverseClosed(dec, view, r);
    UniverseClosed(dec, after, r);
    DfsAgrees(dec, view, after, false, Universe(dec, view, r), Universe(dec, after, r), r, {}, []);
  }

  /** So the same keys are marked in a second run, and nothing more is collected. */
  lemma SameMarks(dec: Decoders, view: BlockMap, meta: Records, minAge: int, now: int)
    ensures
      var after := Collected(dec, view, meta, minAge, now);
      Marks(dec, after, meta) == Marks(dec, view, meta) && Collected(dec, after, meta, minAge, now) == after
  {
    hide Roots, Keeps, WalkFrom, CallMarks;
    var after := Collected(dec, view, meta, minAge, now);
    forall r | r in Roots(dec, meta) && !r.IsZero()
      ensures RootMarks(dec, after, meta, r) == RootMarks(dec, view, meta, r)
    {
      SameWalk(dec, view, meta, minAge, now, r);
    }
    SweptTwice(dec.fs.env, view, Marks(dec, view, meta), meta, minAge, now);
  }

  /** GC neither breaks nor completes a sealed DAG, and a complete one reaches the same MIDs afterwards. */
  lemma SameReach(dec: Decoders, view: BlockMap, meta: Records, minAge: int, now: int, r: Mid)
    requires r in Roots(dec, meta) && !r.IsZero()
    ensures
      var after := Collected(dec, view, meta, minAge, now);
      && (Complete(dec, after, r) <==> Complete(dec, view, r))
      && (Complete(dec, view, r) ==> forall x :: Reach(dec, after, r, x) <==> Reach(dec, view, r, x))
  {
    hide Roots, Collected, WalkFrom, Complete, Reach;
    SameWalk(dec, view, meta, minAge, now, r);
    WalkIsClosure(dec, view, r);
    WalkIsClosure(dec, Collected(dec, view, meta, minAge, now), r);
  }
}
