/** core/store/pebble.go: what the store keeps on disk. Pebble keys are multihashes; a large payload lies in a flat file
    whose name carries the codec, and the key holds its length. */
module StoreDisk {
  import opened Common

  const LARGE := 1024 * 1024

  datatype StoreError = Closed | ZeroMid | BadContent | NotFound

  // ------------------------------------------------------ length markers

  function Shift(i: nat): (r: nat)
    ensures r >= 1
  {
    if i == 0 then 1 else 256 * Shift(i - 1)
  }

  /** Big-endian 64-bit length marker written in place of a large payload. */
  function Marker(n: nat): (r: Bytes)
    ensures |r| == 8
  {
    seq(8, i requires 0 <= i < 8 => (n / Shift(7 - i)) % 256)
  }

  function BigEndian(v: Bytes): nat {
    if v == [] then 0 else 256 * BigEndian(v[..|v| - 1]) + v[|v| - 1]
  }

  lemma OneMoreByte(v: Bytes, b: byte)
    ensures BigEndian(v + [b]) == 256 * BigEndian(v) + b
  {
    assert (v + [b])[..|v|] == v;
  }

  /** The leading bytes of a marker. */
  function Leading(n: nat, k: nat): (r: Bytes)
    requires k <= 8
    ensures |r| == k
  {
    Marker(n)[..k]
  }

  lemma {:induction false} LeadingValue(n: nat, k: nat)
    requires k <= 8 && n < TWO64
    ensures BigEndian(Leading(n, k)) == n / Shift(8 - k)
  {
    var v := Leading(n, k);
    if k == 0 {
      ShiftValues();
    } else {
      LeadingValue(n, k - 1);
      assert v[..k - 1] == Leading(n, k - 1);
      assert v[k - 1] == (n / Shift(8 - k)) % 256;
      hide Shift, Leading;
      ShiftDown(n, 8 - k);
    }
  }

  lemma ShiftValues()
    ensures Shift(0) == 1 && Shift(8) == TWO64
  {
    assert Shift(4) == 0x1_0000_0000;
  }

  lemma DivDiv(n: nat, i: nat)
    ensures (n / 256) / Shift(i) == n / Shift(i + 1)
  {
    var p := Shift(i);
    var q, r := n / 256, n % 256;
    var a, b := q / p, q % p;
    assert n == 256 * q + r && q == p * a + b;
    assert n == (256 * p) * a + (256 * b + r) by {
      assert 256 * (p * a) == (256 * p) * a;
    }
    assert 256 * b + r < 256 * p;
    QuotientUnique(n, 256 * p, a, 256 * b + r);
  }

  /** One more byte shifted out. */
  lemma {:induction false} ShiftDown(n: nat, i: nat)
    ensures n / Shift(i + 1) == n / Shift(i) / 256
    decreases i
  {
    DivDiv(n, i);
    if i == 0 {
      ShiftValues();
    } else {
      ShiftDown(n / 256, i - 1);
      DivDiv(n, i - 1);
    }
  }

  /** A marker decodes to the length it stands for. */
  lemma MarkerValue(n: nat)
    requires n < TWO64
    ensures BigEndian(Marker(n)) == n
  {
    hide Marker;
    LeadingValue(n, 8);
    ShiftValues();
    assert Leading(n, 8) == Marker(n);
  }

  // ---------------------------------------------------------- namespaces

  /** What a write puts under the key, and into the flat files. */
  function Value(onDisk: bool, data: Bytes): Bytes { if onDisk && |data| >= LARGE then Marker(|data|) else data }

  function Filed(onDisk: bool, files: map<Mid, Bytes>, m: Mid, data: Bytes): map<Mid, Bytes> {
    if onDisk && |data| >= LARGE then files[m := data] else files
  }

  function Unfiled(onDisk: bool, files: map<Mid, Bytes>, m: Mid): map<Mid, Bytes> { if onDisk then files - {m} else files }

  /** One namespace of the store, and the plain map it stands for. */
  ghost predicate Side(env: Env, universe: set<Bytes>, onDisk: bool, db: map<Bytes, Bytes>, contents: map<Bytes, Bytes>) {
    && db.Keys == contents.Keys && contents.Values <= universe
    && forall h :: h in contents ==> h != [] && env.digest(contents[h]) == h && db[h] == Value(onDisk, contents[h])
  }

  /** Files may be left over or missing, but none lies about its hash. */
  ghost predicate FilesOk(env: Env, universe: set<Bytes>, files: map<Mid, Bytes>) {
    files.Values <= universe && forall m :: m in files ==> env.digest(files[m]) == m.hash
  }

  /** What Get reads for a key, given the value and the files. */
  function ReadBack(onDisk: bool, value: Bytes, files: map<Mid, Bytes>, m: Mid): Bytes {
    if onDisk && |value| == 8 && m in files then files[m] else value
  }

  /** What a reader gets for a payload: the payload, or its length when it is large and has no file under this MID. */
  function Served(onDisk: bool, files: map<Mid, Bytes>, m: Mid, payload: Bytes): Bytes {
    if onDisk && |payload| >= LARGE && m !in files then Marker(|payload|) else payload
  }

  /** Reading back, for every MID: eight-byte payloads, other codecs and lost files included. */
  lemma ReadBackServes(env: Env, universe: set<Bytes>, onDisk: bool, db: map<Bytes, Bytes>, files: map<Mid, Bytes>,
                       contents: map<Bytes, Bytes>, m: Mid)
    requires env.CollisionFree(universe) && Side(env, universe, onDisk, db, contents) && FilesOk(env, universe, files)
    ensures m.hash in db <==> m.hash in contents
    ensures m.hash in contents ==> ReadBack(onDisk, db[m.hash], files, m) == Served(onDisk, files, m, contents[m.hash])
  {
    hide Marker;
    if m.hash in contents && m in files {
      assert files[m] in files.Values && contents[m.hash] in contents.Values;
      assert env.digest(files[m]) == env.digest(contents[m.hash]);
    }
  }

  /** The payload comes back exactly when it is inline or has a file under this very MID: a large block is lost to a reader
      that names another codec, and to every reader once its file is gone. */
  lemma ServedIff(onDisk: bool, files: map<Mid, Bytes>, m: Mid, payload: Bytes)
    ensures Served(onDisk, files, m, payload) == payload <==> !onDisk || |payload| < 1048576 || m in files
    ensures Served(onDisk, files, m, payload) != payload ==> |Served(onDisk, files, m, payload)| == 8
  {
    hide Marker;
  }

  /** Large payloads have their file under the codec they are asked for by. */
  ghost predicate AllFiled(onDisk: bool, codecOf: Bytes -> Codec, files: map<Mid, Bytes>, contents: map<Bytes, Bytes>) {
    forall h :: h in contents && onDisk && |contents[h]| >= LARGE ==> Mid(codecOf(h), h) in files
  }

  /** What a write leaves: a payload of less than 1 MiB is kept under the key; a larger one leaves its length there, as eight
      bytes that read back as that number, and goes to a file. */
  lemma WriteLeaves(onDisk: bool, files: map<Mid, Bytes>, m: Mid, payload: Bytes)
    requires |payload| < TWO64
    ensures
      if onDisk && |payload| >= 1048576 then
        && |Value(onDisk, payload)| == 8 && BigEndian(Value(onDisk, payload)) == |payload|
        && Filed(onDisk, files, m, payload) == files[m := payload]
      else
        Value(onDisk, payload) == payload && Filed(onDisk, files, m, payload) == files
    ensures Unfiled(onDisk, files, m) == if onDisk then files - {m} else files
  {
    hide Marker, BigEndian;
    MarkerValue(|payload|);
  }

  lemma SidePut(env: Env, universe: set<Bytes>, onDisk: bool, db: map<Bytes, Bytes>, contents: map<Bytes, Bytes>, m: Mid, data: Bytes)
    requires Side(env, universe, onDisk, db, contents) && data in universe
    requires !m.IsZero() && env.digest(data) == m.hash
    ensures Side(env, universe, onDisk, db[m.hash := Value(onDisk, data)], contents[m.hash := data])
  {
    hide Value;
    assert contents[m.hash := data].Values <= contents.Values + {data};
  }

  lemma SideDelete(env: Env, universe: set<Bytes>, onDisk: bool, db: map<Bytes, Bytes>, contents: map<Bytes, Bytes>, h: Bytes)
    requires Side(env, universe, onDisk, db, contents)
    ensures Side(env, universe, onDisk, db - {h}, contents - {h})
  {
    hide Value;
    assert (contents - {h}).Values <= contents.Values;
  }

  lemma FilesPut(env: Env, universe: set<Bytes>, onDisk: bool, files: map<Mid, Bytes>, m: Mid, data: Bytes)
    requires FilesOk(env, universe, files) && data in universe && env.digest(data) == m.hash
    ensures FilesOk(env, universe, Filed(onDisk, files, m, data))
  {
    assert files[m := data].Values <= files.Values + {data};
  }

  lemma FilesDrop(env: Env, universe: set<Bytes>, files: map<Mid, Bytes>, gone: set<Mid>)
    requires FilesOk(env, universe, files)
    ensures FilesOk(env, universe, files - gone)
  {
    assert (files - gone).Values <= files.Values;
  }

  // --------------------------------------------------------------- writes

  predicate Acceptable(env: Env, b: Block) { !b.mid.IsZero() && env.digest(b.data) == b.mid.hash }

  function Verdict(closed: bool, env: Env, m: Mid, data: Bytes): Result<(), StoreError> {
    if closed then Err(Closed) else if m.IsZero() then Err(ZeroMid)
    else if env.digest(data) != m.hash then Err(BadContent) else Ok(())
  }

  /** The plain map, the stamps and the files after a batch. */
  function Applied(contents: map<Bytes, Bytes>, batch: seq<Block>): map<Bytes, Bytes> {
    if batch == [] then contents
    else
      var n := |batch| - 1;
      Applied(contents, batch[..n])[batch[n].mid.hash := batch[n].data]
  }

  function Stamped(stamps: map<Mid, nat>, batch: seq<Block>, now: nat): map<Mid, nat> {
    if batch == [] then stamps
    else
      var n := |batch| - 1;
      Stamped(stamps, batch[..n], now)[batch[n].mid := now]
  }

  function FiledAll(onDisk: bool, files: map<Mid, Bytes>, batch: seq<Block>): map<Mid, Bytes> {
    if batch == [] then files
    else
      var n := |batch| - 1;
      Filed(onDisk, FiledAll(onDisk, files, batch[..n]), batch[n].mid, batch[n].data)
  }

  /** How many blocks of a batch come before the first that is not acceptable. */
  function GoodPrefix(env: Env, batch: seq<Block>): (n: nat)
    ensures n <= |batch| && (n == |batch| <==> forall i :: 0 <= i < |batch| ==> Acceptable(env, batch[i]))
    ensures n < |batch| ==> !Acceptable(env, batch[n])
    ensures forall i :: 0 <= i < n ==> Acceptable(env, batch[i])
  {
    if batch == [] || !Acceptable(env, batch[0]) then 0 else 1 + GoodPrefix(env, batch[1..])
  }
}
