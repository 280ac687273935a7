/** core/store/seal.go run on core/store/pebble.go: the walk reads through Get, Bloom filter included, and the sweep
    deletes keys of both namespaces and raw-codec flat files, counting bytes from the stored values. */
module StoreGc {
  import opened Common
  import opened CountingBloom
  import opened StoreDisk
  import opened HybridStore
  import opened MemfsBuild
  import opened StoreWalk
  import opened Gc

  // -------------------------------------------------- what the walk sees

  /** What Get serves of a plain map when it is asked for each key under its codec. */
  function ServedMap(onDisk: bool, codecOf: Bytes -> Codec, files: map<Mid, Bytes>, contents: BlockMap): BlockMap {
    map h | h in contents :: Served(onDisk, files, Mid(codecOf(h), h), contents[h])
  }

  /** The part of it that the filter lets through. */
  ghost function Seen(s: MemStore, codecOf: Bytes -> Codec): BlockMap
    requires s.Usable()
    reads s, s.Filter()
  {
    map h | h in s.Plain() && s.Passes({h}) :: ServedMap(s.onDisk, codecOf, s.files, s.Plain())[h]
  }

  ghost predicate FilesThere(s: MemStore, codecOf: Bytes -> Codec)
    reads s`files, s`blocks, s`nodes
  {
    AllFiled(s.onDisk, codecOf, s.files, s.blocks) && AllFiled(s.onDisk, codecOf, s.files, s.nodes)
  }

  /** When the filter denies nothing and no file is missing, the walk sees the whole plain map. */
  lemma SightedSeesAll(s: MemStore, codecOf: Bytes -> Codec)
    requires s.Sighted() && FilesThere(s, codecOf)
    ensures Seen(s, codecOf) == s.Plain()
  {
    hide Side, FilesOk;
    forall h | h in s.Plain() ensures s.Passes({h}) {
      assert h in s.blocks.Keys + s.nodes.Keys;
    }
  }

  function Payloads(onDisk: bool, codecOf: Bytes -> Codec, files: map<Mid, Bytes>, db: map<Bytes, Bytes>): BlockMap {
    map h | h in db :: ReadBack(onDisk, db[h], files, Mid(codecOf(h), h))
  }

  lemma PayloadsAreServed(env: Env, universe: set<Bytes>, onDisk: bool, codecOf: Bytes -> Codec, files: map<Mid, Bytes>,
                          db: map<Bytes, Bytes>, contents: map<Bytes, Bytes>)
    requires env.CollisionFree(universe) && FilesOk(env, universe, files) && Side(env, universe, onDisk, db, contents)
    ensures Payloads(onDisk, codecOf, files, db) == ServedMap(onDisk, codecOf, files, contents)
  {
    hide Side, FilesOk, Marker, Served;
    forall h ensures h in db <==> h in contents
      ensures h in contents ==> ReadBack(onDisk, db[h], files, Mid(codecOf(h), h)) == Served(onDisk, files, Mid(codecOf(h), h), contents[h])
    {
      ReadBackServes(env, universe, onDisk, db, files, contents, Mid(codecOf(h), h));
    }
  }

  lemma ServedKeys(onDisk: bool, codecOf: Bytes -> Codec, files: map<Mid, Bytes>, contents: BlockMap)
    ensures ServedMap(onDisk, codecOf, files, contents).Keys == contents.Keys
  {
  }

  lemma ServedUnion(onDisk: bool, codecOf: Bytes -> Codec, files: map<Mid, Bytes>, a: BlockMap, b: BlockMap)
    ensures ServedMap(onDisk, codecOf, files, a + b) == ServedMap(onDisk, codecOf, files, a) + ServedMap(onDisk, codecOf, files, b)
  {
    hide Served;
  }

  /** What Get answers for each key, which is all the walk can see. */
  method LookAt(s: MemStore, codecOf: Bytes -> Codec) returns (view: BlockMap)
    requires s.Usable()
    ensures view == old(Seen(s, codecOf))
  {
    hide Side, FilesOk, Tests, Payloads, ServedMap, Env.CollisionFree;
    PayloadsAreServed(s.env, s.universe, s.onDisk, codecOf, s.files, s.blockDb, s.blocks);
    PayloadsAreServed(s.env, s.universe, s.onDisk, codecOf, s.files, s.dagDb, s.nodes);
    ServedUnion(s.onDisk, codecOf, s.files, s.nodes, s.blocks);
    ServedKeys(s.onDisk, codecOf, s.files, s.Plain());
    var all := Payloads(s.onDisk, codecOf, s.files, s.dagDb) + Payloads(s.onDisk, codecOf, s.files, s.blockDb);
    if s.bloom == null {
      view := all;
      assert Seen(s, codecOf) == all;
    } else {
      view := map h | h in all && Tests(s.bloom.f, s.bloom.counters[..], h) :: all[h];
      assert forall h :: s.Passes({h}) <==> Tests(s.bloom.f, s.bloom.counters[..], h);
    }
  }

  // ----------------------------------------------------- counting bytes

  /** What the sweep counts for a stored value: with flat files on, any eight bytes are taken for a length. */
  function Reported(onDisk: bool): Bytes -> nat { (v: Bytes) => if onDisk && |v| == 8 then BigEndian(v) else |v| }

  /** How far off that is for one payload: only an inline payload of eight bytes can be miscounted, and it is counted
      right exactly when it reads as the number 8. */
  function Off(onDisk: bool, payload: Bytes): int { if onDisk && |payload| == 8 then BigEndian(payload) - 8 else 0 }

  lemma ReportedIs(onDisk: bool, payload: Bytes)
    requires |payload| < TWO64
    ensures Reported(onDisk)(Value(onDisk, payload)) == |payload| + Off(onDisk, payload)
    ensures Reported(onDisk)(Value(onDisk, payload)) == |payload| <==> !(onDisk && |payload| == 8 && BigEndian(payload) != 8)
  {
    hide Marker, BigEndian;
    MarkerValue(|payload|);
  }

  /** Eight bytes can be counted as 64 PiB. */
  lemma EightBytesMiscounted()
    ensures Reported(true)(Value(true, [1] + Zeros(7))) == 0x100_0000_0000_0000
  {
    hide BigEndian;
    var v: Bytes := [1];
    OneMoreByte([], 1);
    EmptyIsZero();
    assert v == [] + [1];
    for i := 0 to 7
      invariant v == [1] + Zeros(i) && BigEndian(v) == Shift(i)
    {
      OneMoreByte(v, 0);
      v := v + [0];
    }
    assert Shift(3) == 0x100_0000;
  }

  lemma EmptyIsZero()
    ensures BigEndian([]) == 0
  {
  }

  /** The total error for a namespace. */
  ghost function TotalOff(onDisk: bool, contents: BlockMap): int {
    if contents == map[] then 0
    else
      var k :| k in contents;
      Off(onDisk, contents[k]) + TotalOff(onDisk, contents - {k})
  }

  lemma {:induction false} TotalOffWithout(onDisk: bool, contents: BlockMap, k: Bytes)
    requires k in contents
    ensures TotalOff(onDisk, contents) == Off(onDisk, contents[k]) + TotalOff(onDisk, contents - {k})
    decreases |contents|
  {
    hide Off;
    var first :| first in contents && TotalOff(onDisk, contents) == Off(onDisk, contents[first]) + TotalOff(onDisk, contents - {first});
    if first == k {
      assert contents - {first} == contents - {k};
    } else {
      TotalOffWithout(onDisk, contents - {first}, k);
      TotalOffWithout(onDisk, contents - {k}, first);
      assert contents - {first} - {k} == contents - {k} - {first};
    }
  }

  lemma SideAt(env: Env, universe: set<Bytes>, onDisk: bool, db: BlockMap, contents: BlockMap, k: Bytes)
    requires Side(env, universe, onDisk, db, contents) && k in contents
    ensures k in db && db[k] == Value(onDisk, contents[k]) && contents[k] in universe
  {
    hide Value;
    assert contents[k] in contents.Values;
  }

  lemma {:induction false} ReportedTotal(env: Env, universe: set<Bytes>, onDisk: bool, db: BlockMap, contents: BlockMap)
    requires Side(env, universe, onDisk, db, contents) && forall d :: d in universe ==> |d| < TWO64
    ensures Occupied(db, Reported(onDisk)) == Occupied(contents, PlainSize()) + TotalOff(onDisk, contents)
    decreases |contents|
  {
    hide Side, Value, Off, Reported, Occupied, TotalOff;
    if contents == map[] {
      NothingToCount(env, universe, onDisk, db);
    } else {
      var k :| k in contents;
      SideAt(env, universe, onDisk, db, contents, k);
      ReportedIs(onDisk, contents[k]);
      OccupiedWithout(db, Reported(onDisk), k);
      OccupiedWithout(contents, PlainSize(), k);
      TotalOffWithout(onDisk, contents, k);
      SideDelete(env, universe, onDisk, db, contents, k);
      ReportedTotal(env, universe, onDisk, db - {k}, contents - {k});
    }
  }

  lemma NothingToCount(env: Env, universe: set<Bytes>, onDisk: bool, db: BlockMap)
    requires Side(env, universe, onDisk, db, map[])
    ensures Occupied(db, Reported(onDisk)) == 0 && Occupied(map[], PlainSize()) == 0 && TotalOff(onDisk, map[]) == 0
  {
    assert db == map[];
  }

  /** What the errors of a smaller map leave out. */
  lemma {:induction false} TotalOffSplit(onDisk: bool, contents: BlockMap, gone: set<Bytes>)
    requires gone <= contents.Keys
    ensures TotalOff(onDisk, contents) == TotalOff(onDisk, contents - gone) + TotalOff(onDisk, map h | h in contents && h in gone :: contents[h])
    decreases |gone|
  {
    hide TotalOff, Off;
    var lost := map h | h in contents && h in gone :: contents[h];
    if gone == {} {
      assert contents - gone == contents && lost == map[];
      NothingOff(onDisk);
    } else {
      var k :| k in gone;
      var fewer := map h | h in contents && h in gone - {k} :: contents[h];
      TotalOffSplit(onDisk, contents, gone - {k});
      TotalOffWithout(onDisk, contents - (gone - {k}), k);
      TotalOffWithout(onDisk, lost, k);
      assert contents - (gone - {k}) - {k} == contents - gone;
      assert lost - {k} == fewer;
    }
  }

  lemma NothingOff(onDisk: bool)
    ensures TotalOff(onDisk, map[]) == 0
  {
  }

  /** If no payload reads as less than 8, errors cannot cancel, and the total is right exactly when each count is. */
  lemma {:induction false} NoErrorIff(onDisk: bool, contents: BlockMap)
    requires forall h :: h in contents ==> Off(onDisk, contents[h]) >= 0
    ensures TotalOff(onDisk, contents) >= 0
    ensures TotalOff(onDisk, contents) == 0 <==> forall h :: h in contents ==> Off(onDisk, contents[h]) == 0
    decreases |contents|
  {
    hide Off;
    if contents != map[] {
      var k :| k in contents;
      TotalOffWithout(onDisk, contents, k);
      NoErrorIff(onDisk, contents - {k});
      if forall h :: h in contents - {k} ==> Off(onDisk, (contents - {k})[h]) == 0 {
        forall h | h in contents && h != k ensures Off(onDisk, contents[h]) == 0 {
          assert h in contents - {k};
        }
      }
    }
  }

  // ----------------------------------------------------------------- GC

  function Only(db: BlockMap, keep: set<Bytes>): BlockMap { map h | h in db && h in keep :: db[h] }

  /** Dropping the same keys from a namespace and from the plain map it stands for. */
  lemma SideSwept(env: Env, universe: set<Bytes>, onDisk: bool, db: BlockMap, contents: BlockMap, marks: set<Bytes>, meta: Records,
                  minAge: int, now: int)
    requires Side(env, universe, onDisk, db, contents)
    ensures Side(env, universe, onDisk, Swept(env, db, marks, meta, minAge, now), Swept(env, contents, marks, meta, minAge, now))
    ensures Swept(env, contents, marks, meta, minAge, now).Keys <= contents.Keys
    ensures Swept(env, db, marks, meta, minAge, now).Keys == Swept(env, contents, marks, meta, minAge, now).Keys
    ensures forall h :: h in contents && h !in Swept(env, contents, marks, meta, minAge, now) ==> !Keeps(env, marks, meta, minAge, now, h)
  {
    hide Keeps, Value;
    assert Swept(env, contents, marks, meta, minAge, now).Values <= contents.Values;
  }

  lemma StillFiled(env: Env, onDisk: bool, codecOf: Bytes -> Codec, files: map<Mid, Bytes>, contents: BlockMap, gone: set<Mid>,
                   marks: set<Bytes>, meta: Records, minAge: int, now: int)
    requires forall m :: m in gone ==> !Keeps(env, marks, meta, minAge, now, m.hash)
    ensures AllFiled(onDisk, codecOf, files, contents) ==> AllFiled(onDisk, codecOf, files - gone, Swept(env, contents, marks, meta, minAge, now))
  {
    hide Keeps;
  }

  /** Of the flat files exactly those go that a key leaving the store has under the raw codec. */
  ghost predicate FilesCollected(onDisk: bool, files: map<Mid, Bytes>, files': map<Mid, Bytes>, before: set<Bytes>, after: set<Bytes>) {
    && (forall m :: m in files' <==> m in files && !(onDisk && m.codec == 0x55 && m.hash in before && m.hash !in after))
    && (forall m :: m in files' ==> files'[m] == files[m])
  }

  function RawFiles(keys: set<Bytes>): set<Mid> { set h | h in keys :: Mid(CODEC_RAW, h) }

  lemma StillFiltered(s: MemStore, bs: set<Bytes>, ns: set<Bytes>, b: set<Bytes>, d: set<Bytes>)
    requires b <= bs && d <= ns
    ensures s.Counts(bs, ns) ==> s.Counts(b, d)
    ensures s.Passes(bs + ns) ==> s.Passes(b + d)
  {
    hide Covers;
    if s.bloom != null && s.Counts(bs, ns) {
      CoversFewer(s.bloom.f, s.bloom.counters[..], s.held, bs, ns, b, d);
    }
  }

  /** What the sweep would count for the whole store. */
  ghost function Size(s: MemStore): nat
    reads s
  {
    Occupied(s.blockDb, Reported(s.onDisk)) + Occupied(s.dagDb, Reported(s.onDisk))
  }

  /** The payloads of the whole store, keys included. */
  ghost function PlainTotal(s: MemStore): nat
    reads s
  {
    Occupied(s.blocks, PlainSize()) + Occupied(s.nodes, PlainSize())
  }

  /** GC over the hybrid store. The marks come from what the filter lets the walk see; exactly the marked keys and those
      spared by age stay in both namespaces. On a sighted store that is the outcome all results about GC speak of, and a
      valid store stays valid. The bytes reported freed are what is counted for the values gone. */
  method Collect(s: MemStore, dec: Decoders, codecOf: Bytes -> Codec, seals: map<Bytes, Seal>, manifests: map<Mid, seq<Mid>>,
                 minAge: int, now: int) returns (freed: nat)
    requires s.Usable() && dec.fs.env == s.env
    modifies s`blockDb, s`dagDb, s`files, s`blocks, s`nodes
    ensures s.Usable() && (old(FilesThere(s, codecOf)) ==> FilesThere(s, codecOf))
    ensures
      var meta := Records(seals, s.stamps, manifests);
      var marks := old(Marks(dec, Seen(s, codecOf), meta));
      && s.blocks == Swept(s.env, old(s.blocks), marks, meta, minAge, now)
      && s.nodes == Swept(s.env, old(s.nodes), marks, meta, minAge, now)
      && s.Plain() == Swept(s.env, old(s.Plain()), marks, meta, minAge, now)
    ensures FilesCollected(s.onDisk, old(s.files), s.files, old(s.blocks.Keys + s.nodes.Keys), s.blocks.Keys + s.nodes.Keys)
    ensures KeptAsAccounted(dec, old(Seen(s, codecOf)), Records(seals, s.stamps, manifests), minAge, old(s.blocks), s.blocks)
    ensures KeptAsAccounted(dec, old(Seen(s, codecOf)), Records(seals, s.stamps, manifests), minAge, old(s.nodes), s.nodes)
    ensures freed == Wrap64(old(Size(s)) - Size(s)) && Size(s) <= old(Size(s))
    ensures old(s.Sighted() && FilesThere(s, codecOf)) ==>
      s.Plain() == Collected(dec, old(s.Plain()), Records(seals, s.stamps, manifests), minAge, now)
    ensures old(s.Sighted()) ==> s.Sighted()
    ensures old(s.Valid()) ==> s.Valid()
  {
    hide Side, FilesOk, Covers, Shows, Swept, Occupied, Marks, Seen, FilesThere, Reported, Wrap64, Counter, KeptAsAccounted, FilesCollected;
    var meta := Records(seals, s.stamps, manifests);
    if s.Sighted() && FilesThere(s, codecOf) {
      SightedSeesAll(s, codecOf);
    }
    ghost var bs, ns, marks := s.blocks.Keys, s.nodes.Keys, Marks(dec, Seen(s, codecOf), meta);
    SweptAsAccounted(dec, Seen(s, codecOf), meta, minAge, now, s.blocks);
    SweptAsAccounted(dec, Seen(s, codecOf), meta, minAge, now, s.nodes);
    SweptUnion(s.env, s.blocks, s.nodes, marks, meta, minAge, now);
    var b, d;
    b, d, freed := MarkAndSweep(s, dec, codecOf, meta, minAge, now);
    Narrow(s, codecOf, b, d, marks, meta, minAge, now);
    StillFiltered(s, bs, ns, s.blocks.Keys, s.nodes.Keys);
  }

  /** What is left of the values in both namespaces. */
  method MarkAndSweep(s: MemStore, dec: Decoders, codecOf: Bytes -> Codec, meta: Records, minAge: int, now: int)
      returns (b: BlockMap, d: BlockMap, freed: nat)
    requires s.Usable() && dec.fs.env == s.env
    ensures b == old(Swept(s.env, s.blockDb, Marks(dec, Seen(s, codecOf), meta), meta, minAge, now))
    ensures d == old(Swept(s.env, s.dagDb, Marks(dec, Seen(s, codecOf), meta), meta, minAge, now))
    ensures
      var size := Occupied(b, Reported(s.onDisk)) + Occupied(d, Reported(s.onDisk));
      freed == Wrap64(old(Size(s)) - size) && size <= old(Size(s))
  {
    hide Side, FilesOk, Covers, Shows, Swept, Occupied, Marks, Seen, FilesThere, Reported, Wrap64, Counter;
    var view := LookAt(s, codecOf);
    var marks := Mark(dec, view, meta);
    var freedB;
    b, freedB := Sweep(s.env, s.blockDb, marks, meta, minAge, now, Reported(s.onDisk), 0);
    CounterTwice(s.blockDb, b, s.dagDb, Swept(s.env, s.dagDb, marks, meta, minAge, now), Reported(s.onDisk));
    d, freed := Sweep(s.env, s.dagDb, marks, meta, minAge, now, Reported(s.onDisk), freedB);
  }

  /** The deletions: keys outside `b` and `d`, and the flat files of the raw-codec MIDs of deleted keys. */
  method Narrow(s: MemStore, ghost codecOf: Bytes -> Codec, b: BlockMap, d: BlockMap, ghost marks: set<Bytes>, ghost meta: Records,
                ghost minAge: int, ghost now: int)
    requires s.DiskOk()
    requires b == Swept(s.env, s.blockDb, marks, meta, minAge, now) && d == Swept(s.env, s.dagDb, marks, meta, minAge, now)
    modifies s`blockDb, s`dagDb, s`files, s`blocks, s`nodes
    ensures s.DiskOk() && (old(FilesThere(s, codecOf)) ==> FilesThere(s, codecOf))
    ensures s.blocks == Swept(s.env, old(s.blocks), marks, meta, minAge, now)
    ensures s.nodes == Swept(s.env, old(s.nodes), marks, meta, minAge, now)
    ensures s.blockDb == b && s.dagDb == d
    ensures FilesCollected(s.onDisk, old(s.files), s.files, old(s.blocks.Keys + s.nodes.Keys), s.blocks.Keys + s.nodes.Keys)
    ensures s.blocks.Keys <= old(s.blocks.Keys) && s.nodes.Keys <= old(s.nodes.Keys)
  {
    hide Side, FilesOk, Swept, Keeps, FilesCollected, RawFiles, FilesThere;
    KeysAgree(s);
    ghost var bs, ns, files := s.blocks.Keys, s.nodes.Keys, s.files;
    ghost var was := FilesThere(s, codecOf);
    SideSwept(s.env, s.universe, s.onDisk, s.blockDb, s.blocks, marks, meta, minAge, now);
    SideSwept(s.env, s.universe, s.onDisk, s.dagDb, s.nodes, marks, meta, minAge, now);
    var gone := if s.onDisk then RawFiles(s.blockDb.Keys + s.dagDb.Keys - b.Keys - d.Keys) else {};
    FilesDrop(s.env, s.universe, s.files, gone);
    RawGone(s.onDisk, files, bs, ns, b.Keys, d.Keys, gone);
    BothFiled(s, codecOf, gone, marks, meta, minAge, now);
    s.blockDb, s.dagDb, s.files := b, d, s.files - gone;
    s.blocks, s.nodes := Swept(s.env, s.blocks, marks, meta, minAge, now), Swept(s.env, s.nodes, marks, meta, minAge, now);
    FiledHere(s, codecOf);
  }

  lemma FiledHere(s: MemStore, codecOf: Bytes -> Codec)
    ensures FilesThere(s, codecOf) <==>
      AllFiled(s.onDisk, codecOf, s.files, s.blocks) && AllFiled(s.onDisk, codecOf, s.files, s.nodes)
  {
  }

  lemma BothFiled(s: MemStore, codecOf: Bytes -> Codec, gone: set<Mid>, marks: set<Bytes>, meta: Records, minAge: int, now: int)
    requires FilesThere(s, codecOf) ==> forall m :: m in gone ==> !Keeps(s.env, marks, meta, minAge, now, m.hash)
    ensures FilesThere(s, codecOf) ==>
      && AllFiled(s.onDisk, codecOf, s.files - gone, Swept(s.env, s.blocks, marks, meta, minAge, now))
      && AllFiled(s.onDisk, codecOf, s.files - gone, Swept(s.env, s.nodes, marks, meta, minAge, now))
  {
    if FilesThere(s, codecOf) {
      StillFiled(s.env, s.onDisk, codecOf, s.files, s.blocks, gone, marks, meta, minAge, now);
      StillFiled(s.env, s.onDisk, codecOf, s.files, s.nodes, gone, marks, meta, minAge, now);
    }
  }

  lemma RawGone(onDisk: bool, files: map<Mid, Bytes>, bs: set<Bytes>, ns: set<Bytes>, b: set<Bytes>, d: set<Bytes>, gone: set<Mid>)
    requires gone == if onDisk then RawFiles(bs + ns - b - d) else {}
    ensures FilesCollected(onDisk, files, files - gone, bs + ns, b + d)
    ensures forall m :: m in gone ==> (m.hash in bs || m.hash in ns) && m.hash !in b && m.hash !in d
  {
    forall m: Mid ensures m in gone <==> onDisk && m.codec == 0x55 && m.hash in bs + ns && m.hash !in b + d {
      assert m == Mid(m.codec, m.hash);
    }
  }

  lemma KeysAgree(s: MemStore)
    requires s.DiskOk()
    ensures s.blockDb.Keys == s.blocks.Keys && s.dagDb.Keys == s.nodes.Keys
  {
    hide FilesOk;
  }

  /** The same run, reported against the payloads: the report exceeds what is gone by the errors on the eight-byte payloads
      that are gone, so it is right exactly when these add up to nothing. */
  method CollectAndAccount(s: MemStore, dec: Decoders, codecOf: Bytes -> Codec, seals: map<Bytes, Seal>,
                           manifests: map<Mid, seq<Mid>>, minAge: int, now: int) returns (freed: nat)
    requires s.Usable() && dec.fs.env == s.env && forall d :: d in s.universe ==> |d| < TWO64
    modifies s`blockDb, s`dagDb, s`files, s`blocks, s`nodes
    ensures s.Usable()
    ensures freed
         == Wrap64(old(PlainTotal(s)) - PlainTotal(s) + Lost(s.onDisk, old(s.blocks), s.blocks) + Lost(s.onDisk, old(s.nodes), s.nodes))
  {
    hide Side, FilesOk, Covers, Shows, Swept, Occupied, Marks, Seen, FilesThere, Reported, Wrap64, TotalOff, Lost, KeptAsAccounted, FilesCollected;
    ghost var blocks, nodes := s.blocks, s.nodes;
    ReportedTotal(s.env, s.universe, s.onDisk, s.blockDb, s.blocks);
    ReportedTotal(s.env, s.universe, s.onDisk, s.dagDb, s.nodes);
    freed := Collect(s, dec, codecOf, seals, manifests, minAge, now);
    ReportedTotal(s.env, s.universe, s.onDisk, s.blockDb, s.blocks);
    ReportedTotal(s.env, s.universe, s.onDisk, s.dagDb, s.nodes);
    SweptLost(s.env, s.onDisk, blocks, old(Marks(dec, Seen(s, codecOf), Records(seals, s.stamps, manifests))), Records(seals, s.stamps, manifests), minAge, now);
    SweptLost(s.env, s.onDisk, nodes, old(Marks(dec, Seen(s, codecOf), Records(seals, s.stamps, manifests))), Records(seals, s.stamps, manifests), minAge, now);
  }

  /** When no payload gone reads as less than 8 and the counter does not wrap, the report is right exactly when every
      eight-byte payload gone reads as 8. */
  lemma ReportIsRightIff(onDisk: bool, before: BlockMap, after: BlockMap, before': BlockMap, after': BlockMap, gone: nat, freed: nat)
    requires forall h :: h in before && h !in after ==> Off(onDisk, before[h]) >= 0
    requires forall h :: h in before' && h !in after' ==> Off(onDisk, before'[h]) >= 0
    requires freed == Wrap64(gone + Lost(onDisk, before, after) + Lost(onDisk, before', after'))
    requires gone + Lost(onDisk, before, after) + Lost(onDisk, before', after') < TWO64
    ensures freed == gone <==>
      && (forall h :: h in before && h !in after ==> Off(onDisk, before[h]) == 0)
      && (forall h :: h in before' && h !in after' ==> Off(onDisk, before'[h]) == 0)
  {
    hide Off, TotalOff;
    LostIff(onDisk, before, after);
    LostIff(onDisk, before', after');
  }

  lemma LostIff(onDisk: bool, before: BlockMap, after: BlockMap)
    requires forall h :: h in before && h !in after ==> Off(onDisk, before[h]) >= 0
    ensures Lost(onDisk, before, after) >= 0
    ensures Lost(onDisk, before, after) == 0 <==> forall h :: h in before && h !in after ==> Off(onDisk, before[h]) == 0
  {
    hide Off, TotalOff;
    var lost := map h | h in before && h !in after :: before[h];
    NoErrorIff(onDisk, lost);
    assert forall h :: h in before && h !in after <==> h in lost;
    assert forall h :: h in lost ==> lost[h] == before[h];
  }

  /** The error on the payloads that are gone. */
  ghost function Lost(onDisk: bool, before: BlockMap, after: BlockMap): int {
    TotalOff(onDisk, map h | h in before && h !in after :: before[h])
  }

  lemma SweptLost(env: Env, onDisk: bool, before: BlockMap, marks: set<Bytes>, meta: Records, minAge: int, now: int)
    ensures
      var after := Swept(env, before, marks, meta, minAge, now);
      TotalOff(onDisk, before) == TotalOff(onDisk, after) + Lost(onDisk, before, after)
  {
    hide Keeps, TotalOff;
    var after := Swept(env, before, marks, meta, minAge, now);
    var gone := before.Keys - after.Keys;
    TotalOffSplit(onDisk, before, gone);
    assert before - gone == after;
    assert (map h | h in before && h in gone :: before[h]) == (map h | h in before && h !in after :: before[h]);
  }

  /** A store of one eight-byte block, collected with no seal: the report is the key's length plus the block read as a
      number. */
  method MisreportsEightBytes(env: Env, dec: Decoders, data: Bytes, now: nat) returns (freed: nat)
    requires env.digest(data) != [] && |data| == 8 && dec.fs.env == env
    ensures freed == Wrap64(PREFIX_LEN + |env.digest(data)| + BigEndian(data))
  {
    hide Side, FilesOk, Covers, Shows, Marks, Seen, BigEndian, Wrap64, KeptAsAccounted, FilesCollected;
    var h := env.digest(data);
    var s := OneBlockStore(env, true, x => (0, 0), data, now);
    OneValue(s, h, data);
    freed := Collect(s, dec, x => CODEC_RAW, map[], map[], 0, now);
    NothingKept(dec, map[h := data], Records(map[], s.stamps, map[]), now);
    NothingLeft(s);
  }

  lemma OneValue(s: MemStore, h: Bytes, data: Bytes)
    requires s.DiskOk() && s.onDisk && s.blocks == map[h := data] && s.nodes == map[] && |data| == 8
    ensures Occupied(s.blockDb, Reported(true)) == PREFIX_LEN + |h| + BigEndian(data) && Occupied(s.dagDb, Reported(true)) == 0
  {
    hide FilesOk, BigEndian;
    assert s.blockDb == map[h := data] && s.dagDb == map[];
    OccupiedWithout(s.blockDb, Reported(true), h);
    assert s.blockDb - {h} == map[];
  }

  lemma NothingKept(dec: Decoders, contents: BlockMap, meta: Records, now: int)
    requires meta.seals == map[] && [] !in contents
    ensures forall view :: Swept(dec.fs.env, contents, Marks(dec, view, meta), meta, 0, now) == map[]
  {
    forall view ensures Swept(dec.fs.env, contents, Marks(dec, view, meta), meta, 0, now) == map[] {
      assert Roots(dec, meta) == {};
      assert Marks(dec, view, meta) == {};
    }
  }

  lemma NothingLeft(s: MemStore)
    requires s.DiskOk() && s.blocks == map[] && s.nodes == map[]
    ensures Occupied(s.blockDb, Reported(s.onDisk)) == 0 && Occupied(s.dagDb, Reported(s.onDisk)) == 0
  {
    hide FilesOk;
    assert s.blockDb == map[] && s.dagDb == map[];
  }

  /** What a false negative costs: if the filter denies a sealed root, its walk fails at once and marks nothing else. */
  lemma DeniedRootMarksOnlyItself(dec: Decoders, view: BlockMap, meta: Records, root: Mid)
    requires root.hash !in view
    ensures RootMarks(dec, view, meta, root) == {root.hash}
  {
    hide Universe, Classify;
    UniverseClosed(dec, view, root);
    assert Dfs(dec, view, false, Universe(dec, view, root), root, {}, []).order == [];
  }
}
