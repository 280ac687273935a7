/** core/chunk/fastcdc.go: content-defined chunking with a gear hash, over a reader that fragments as it likes. */
module FastCdc {
  import opened Common
  import opened InputSource

  const MIN_SIZE := 64 * 1024
  const MAX_SIZE := 512 * 1024
  const MID_SIZE := 128 * 1024
  const NORMAL := 0x2_0000
  const TIGHT := 0x8_0000

  // --------------------------------------------- the specification cut

  /** Gear table: a 64-bit linear congruential sequence. */
  function GearEntry(i: nat): nat {
    ((if i == 0 then 0x8a5cd789635d2d01 else GearEntry(i - 1)) * 6364136223846793005 + 1442695040888963407) % TWO64
  }

  function Roll(h: nat, b: byte): nat { (h * 2 + GearEntry(b)) % TWO64 }

  /** Whether the hash after the byte at distance `i` from the block start marks a boundary. */
  predicate Boundary(h: nat, i: nat) { h % (if i < MID_SIZE then NORMAL else TIGHT) == 0 }

  function Scan(s: Bytes, i: nat, h: nat, end: nat): (c: nat)
    requires i <= end <= |s|
    ensures i <= c <= end
    decreases end - i
  {
    if i == end then end
    else if Boundary(Roll(h, s[i]), i) then i
    else Scan(s, i + 1, Roll(h, s[i]), end)
  }

  /** Size of the first block of `s`. */
  function CutPoint(s: Bytes): (c: nat)
    ensures c <= |s| && c <= MAX_SIZE && (s != [] ==> c > 0)
    ensures c < MIN_SIZE ==> c == |s|
  {
    if |s| <= MIN_SIZE then |s| else Scan(s, MIN_SIZE, 0, Min(|s|, MAX_SIZE))
  }

  function Cut(s: Bytes): seq<Bytes>
    decreases |s|
  {
    if s == [] then [] else [s[..CutPoint(s)]] + Cut(s[CutPoint(s)..])
  }

  /** Blocks are non-empty, at most 512 KiB, at least 64 KiB except the last, and concatenate to the input. */
  lemma {:induction false} CutFacts(s: Bytes)
    ensures Flatten(Cut(s)) == s
    ensures forall i :: 0 <= i < |Cut(s)| ==> 0 < |Cut(s)[i]| <= MAX_SIZE
    ensures forall i :: 0 <= i < |Cut(s)| - 1 ==> |Cut(s)[i]| >= MIN_SIZE
    decreases |s|
  {
    hide CutPoint;
    if s != [] {
      var c := CutPoint(s);
      CutFacts(s[c..]);
      assert s == s[..c] + s[c..];
      if c < MIN_SIZE {
        assert s[c..] == [];
      }
    }
  }

  lemma {:induction false} ScanPrefix(s: Bytes, t: Bytes, i: nat, h: nat, end: nat)
    requires i <= end <= |s| && end <= |t| && s[..end] == t[..end]
    ensures Scan(s, i, h, end) == Scan(t, i, h, end)
    decreases end - i
  {
    hide Roll, Boundary;
    if i < end {
      assert s[i] == s[..end][i] == t[..end][i] == t[i];
      if !Boundary(Roll(h, s[i]), i) {
        ScanPrefix(s, t, i + 1, Roll(h, s[i]), end);
      }
    }
  }

  /** The first cut is decided by the first 512 KiB. */
  lemma CutPrefix(s: Bytes, t: Bytes)
    requires |s| >= MAX_SIZE
    ensures CutPoint(s + t) == CutPoint(s)
  {
    hide Scan;
    assert (s + t)[..MAX_SIZE] == s[..MAX_SIZE];
    ScanPrefix(s, s + t, MIN_SIZE, 0, MAX_SIZE);
  }

  // ------------------------------------------------ the cut, said directly

  /** The table: each entry follows from the one before. */
  lemma GearTable(i: nat)
    ensures GearEntry(0) == 0x8d51e2b525b0e97c
    ensures GearEntry(i + 1) == (GearEntry(i) * 6364136223846793005 + 1442695040888963407) % 0x1_0000_0000_0000_0000
  {
  }

  /** Each byte's table entry, weighted with 2 to the power of the byte's age. */
  function GearSum(x: Bytes): nat {
    if x == [] then 0 else Pow2(|x| - 1) * GearEntry(x[0]) + GearSum(x[1..])
  }

  lemma {:induction false} GearSumSnoc(x: Bytes, b: byte)
    ensures GearSum(x + [b]) == 2 * GearSum(x) + GearEntry(b)
  {
    hide GearEntry;
    if x == [] {
      assert x + [b] == [b];
      assert GearSum([b][1..]) == 0 && Pow2(0) == 1;
    } else {
      var t, p, e := x[1..], Pow2(|x| - 1), GearEntry(x[0]);
      assert (x + [b])[1..] == t + [b];
      GearSumSnoc(t, b);
      assert Pow2(|x|) == 2 * p;
      TwiceProduct(p, e);
    }
  }

  lemma TwiceProduct(p: nat, e: nat)
    ensures (2 * p) * e == 2 * (p * e)
  {
  }

  /** The condition at offset `i` of a block: over the bytes from offset 64 KiB through `i`, the sum has 17 zero bits at its
      low end, or 19 from offset 128 KiB on. */
  ghost predicate Marked(s: Bytes, i: nat)
    requires 65536 <= i < |s|
  {
    GearSum(s[65536..i + 1]) % (if i < 131072 then 131072 else 524288) == 0
  }

  /** The block at the head of `s` is its first `c` bytes: all of them up to 64 KiB; else it ends before the first offset
      from 64 KiB on that is marked, after 512 KiB, or with the input. */
  ghost predicate EndsAt(s: Bytes, c: nat) {
    if |s| <= 65536 then c == |s|
    else
      && 65536 <= c <= |s| && c <= 524288
      && (forall i :: 65536 <= i < c ==> !Marked(s, i))
      && (c < |s| && c < 524288 ==> Marked(s, c))
  }

  lemma ModMod(x: nat)
    ensures x % TWO64 % 131072 == x % 131072 && x % TWO64 % 524288 == x % 524288
  {
    var q, r := x / TWO64, x % TWO64;
    assert x == 131072 * (0x8000_0000_0000 * q) + r && x == 524288 * (0x2000_0000_0000 * q) + r;
    ModOfSum(131072, 0x8000_0000_0000 * q, r);
    ModOfSum(524288, 0x2000_0000_0000 * q, r);
  }

  lemma RolledMod(g: nat, e: nat)
    ensures (g % TWO64 * 2 + e) % TWO64 == (2 * g + e) % TWO64
  {
  }

  lemma BoundaryIsMarked(s: Bytes, i: nat, h: nat)
    requires MIN_SIZE <= i < |s| && h == GearSum(s[MIN_SIZE..i]) % TWO64
    ensures Roll(h, s[i]) == GearSum(s[MIN_SIZE..i + 1]) % TWO64
    ensures Boundary(Roll(h, s[i]), i) <==> Marked(s, i)
  {
    hide GearSum, GearEntry;
    var x := s[MIN_SIZE..i];
    assert s[MIN_SIZE..i + 1] == x + [s[i]];
    GearSumSnoc(x, s[i]);
    RolledMod(GearSum(x), GearEntry(s[i]));
    ModMod(GearSum(x + [s[i]]));
  }

  lemma {:induction false} ScanStops(s: Bytes, i: nat, h: nat, end: nat)
    requires MIN_SIZE <= i <= end <= |s| && h == GearSum(s[MIN_SIZE..i]) % TWO64
    ensures
      var c := Scan(s, i, h, end);
      && (forall k :: i <= k < c ==> !Marked(s, k))
      && (c < end ==> Marked(s, c))
    decreases end - i
  {
    hide Marked, Boundary, Roll, GearSum;
    if i < end {
      BoundaryIsMarked(s, i, h);
      if !Boundary(Roll(h, s[i]), i) {
        ScanStops(s, i + 1, Roll(h, s[i]), end);
      }
    }
  }

  /** The specification cut is exactly the one said directly. */
  lemma CutPointIff(s: Bytes, c: nat)
    ensures c == CutPoint(s) <==> EndsAt(s, c)
  {
    hide Marked, Scan;
    if |s| > MIN_SIZE {
      assert s[MIN_SIZE..MIN_SIZE] == [];
      ScanStops(s, MIN_SIZE, 0, Min(|s|, MAX_SIZE));
    }
  }

  /** Every block of the input is of that kind, seen from where it begins. */
  ghost predicate EachEnds(s: Bytes, blocks: seq<Bytes>) {
    forall k :: 0 <= k < |blocks| ==> |Flatten(blocks[..k])| <= |s| && EndsAt(s[|Flatten(blocks[..k])|..], |blocks[k]|)
  }

  lemma {:induction false} CutEnds(s: Bytes)
    ensures Flatten(Cut(s)) == s && EachEnds(s, Cut(s))
    decreases |s|
  {
    hide CutPoint, EndsAt, Flatten;
    CutFacts(s);
    if s != [] {
      var c, rest := CutPoint(s), Cut(s[CutPoint(s)..]);
      CutEnds(s[c..]);
      CutPointIff(s, c);
      forall k | 0 <= k < |Cut(s)|
        ensures |Flatten(Cut(s)[..k])| <= |s| && EndsAt(s[|Flatten(Cut(s)[..k])|..], |Cut(s)[k]|)
      {
        if k == 0 {
          FlattenNothing(Cut(s)[..0]);
          assert s[0..] == s;
        } else {
          assert Cut(s)[..k] == [s[..c]] + rest[..k - 1];
          FlattenHead(s[..c], rest[..k - 1]);
          var n := |Flatten(rest[..k - 1])|;
          assert s[c..][n..] == s[c + n..];
        }
      }
    }
  }

  lemma {:induction false} GearSumAppend(x: Bytes, y: Bytes)
    ensures GearSum(x + y) == Pow2(|y|) * GearSum(x) + GearSum(y)
    decreases |y|
  {
    hide GearEntry, GearSum;
    if y == [] {
      assert x + y == x;
      GearSumEmpty();
    } else {
      var n := |y| - 1;
      GearSumAppend(x, y[..n]);
      assert x + y == x + y[..n] + [y[n]] && y == y[..n] + [y[n]];
      GearSumSnoc(x + y[..n], y[n]);
      GearSumSnoc(y[..n], y[n]);
      TwiceProduct(Pow2(n), GearSum(x));
    }
  }

  lemma GearSumEmpty()
    ensures GearSum([]) == 0 && Pow2(0) == 1
  {
  }

  lemma ModOfSum(p: nat, g: nat, r: nat)
    requires p > 0
    ensures (p * g + r) % p == r % p
  {
    var q := r / p;
    assert p * g + r == p * (g + q) + r % p by {
      assert p * (g + q) == p * g + p * q;
    }
    QuotientUnique(p * g + r, p, g + q, r % p);
  }

  /** The masks take the low bits, so only the last 17 or 19 bytes have a say. */
  lemma WindowIs17Or19(x: Bytes, y: Bytes)
    ensures |y| == 17 ==> GearSum(x + y) % 131072 == GearSum(y) % 131072
    ensures |y| == 19 ==> GearSum(x + y) % 524288 == GearSum(y) % 524288
  {
    hide GearSum;
    GearSumAppend(x, y);
    Pow2Is(|y|);
    if |y| == 17 {
      ModOfSum(131072, GearSum(x), GearSum(y));
    } else if |y| == 19 {
      ModOfSum(524288, GearSum(x), GearSum(y));
    }
  }

  lemma Pow2Is(n: nat)
    ensures n == 17 ==> Pow2(n) == 131072
    ensures n == 19 ==> Pow2(n) == 524288
  {
    assert Pow2(5) == 32;
    assert Pow2(10) == 1024;
    assert Pow2(15) == 32768;
    assert Pow2(19) == 16 * Pow2(15);
  }

  // ------------------------------------------------------- the chunker

  datatype NextResult = Chunk(data: Bytes) | Eof | Failed

  class Chunker {
    const src: Source
    const buf: array<byte>
    var pos: nat
    var limit: nat
    var eofSeen: bool

    ghost predicate Valid()
      reads this, buf
    {
      pos <= limit <= buf.Length == 2 * MAX_SIZE
    }

    /** The bytes not yet emitted: buffered, then still in the reader. */
    ghost function Rest(): Bytes
      requires Valid()
      reads this, buf, src
    {
      buf[pos..limit] + (if eofSeen then [] else Content(src.script))
    }

    constructor (src: Source)
      ensures Valid() && this.src == src && fresh(buf) && !eofSeen && pos == 0 && limit == 0
      ensures Rest() == Content(src.script)
    {
      this.src := src;
      buf := new byte[2 * MAX_SIZE](i => 0);
      pos, limit, eofSeen := 0, 0, false;
      new;
      assert buf[pos..limit] == [];
    }

    /** Shifts the buffered bytes to the front, in place. */
    method Shift()
      requires Valid()
      modifies this`pos, this`limit, buf
      ensures Valid() && pos == 0 && limit == old(limit) - old(pos)
      ensures buf[pos..limit] == old(buf[pos..limit])
    {
      var remaining := limit - pos;
      forall i | 0 <= i < remaining {
        buf[i] := buf[pos + i];
      }
      assert forall i :: 0 <= i < remaining ==> buf[i] == old(buf[pos..limit])[i];
      assert buf[0..remaining] == old(buf[pos..limit]);
      pos, limit := 0, remaining;
    }

    /** Appends what one Read delivers. */
    method Fill() returns (failed: bool)
      requires Valid() && limit < buf.Length && !eofSeen
      modifies this`limit, this`eofSeen, buf, src
      ensures Valid()
      ensures !failed ==> Rest() == old(Rest())
      ensures failed ==> eofSeen && old(Breaks(src.script))
      ensures !failed && eofSeen ==> !old(Breaks(src.script))
      ensures !eofSeen ==> Weight(src.script) < old(Weight(src.script)) && Breaks(src.script) == old(Breaks(src.script))
    {
      hide Content, Breaks, Weight;
      ghost var front, content := buf[pos..limit], Content(src.script);
      var bytes, status := src.Read(buf.Length - limit);
      forall i | 0 <= i < |bytes| {
        buf[limit + i] := bytes[i];
      }
      limit := limit + |bytes|;
      assert forall i :: 0 <= i < |front| ==> buf[pos + i] == front[i];
      assert buf[pos..limit] == front + bytes;
      eofSeen, failed := !status.Fine?, status.Broke?;
      assert front + bytes + [] == front + bytes;
      assert (front + bytes) + Content(src.script) == front + (bytes + Content(src.script));
    }

    /** The scanning loop: the offset at which the block starting at `pos` ends. */
    method FindCut() returns (cut: nat)
      requires Valid() && pos < limit
      ensures pos < cut <= limit && cut - pos == CutPoint(buf[pos..limit]) && EndsAt(buf[pos..limit], cut - pos)
    {
      hide Roll, Boundary, Scan, EndsAt;
      ghost var s := buf[pos..limit];
      CutPointIff(s, CutPoint(s));
      var available := limit - pos;
      if available <= MIN_SIZE {
        return limit;
      }
      var end := pos + Min(available, MAX_SIZE);
      var h, i := 0, pos + MIN_SIZE;
      while i < end
        invariant pos + MIN_SIZE <= i <= end
        invariant Scan(s, MIN_SIZE, 0, end - pos) == Scan(s, i - pos, h, end - pos)
      {
        ScanStep(s, i - pos, h, end - pos);
        assert s[i - pos] == buf[i];
        h := Roll(h, buf[i]);
        if Boundary(h, i - pos) {
          return i;
        }
        i := i + 1;
      }
      ScanEnd(s, h, end - pos);
      return end;
    }

    /** Cuts one block off the buffer. */
    method Emit() returns (data: Bytes)
      requires Valid() && pos < limit && (eofSeen || limit - pos >= MAX_SIZE)
      modifies this`pos
      ensures Valid() && old(Rest()) != []
      ensures data == old(Rest())[..CutPoint(old(Rest()))]
      ensures Rest() == old(Rest())[CutPoint(old(Rest()))..]
    {
      hide CutPoint, Content, EndsAt;
      ghost var rest, s := Rest(), buf[pos..limit];
      var cut := FindCut();
      ghost var n := cut - pos;
      assert CutPoint(rest) == n by {
        if eofSeen {
          assert rest == s;
        } else {
          CutPrefix(s, Content(src.script));
        }
      }
      data := buf[pos..cut];
      SplitFront(s, if eofSeen then [] else Content(src.script), n);
      assert data == s[..n] && buf[cut..limit] == s[n..];
      pos := cut;
    }

    /** Next emits the specification's first block of what is left, however the reader fragments its reads; EOF exactly
        when nothing is left; a failure only if the reader breaks. */
    method Next() returns (r: NextResult)
      requires Valid()
      modifies this`pos, this`limit, this`eofSeen, buf, src
      ensures Valid() && (old(eofSeen) ==> eofSeen)
      ensures r.Failed? ==> !old(eofSeen) && old(Breaks(src.script))
      ensures r.Eof? ==> old(Rest()) == [] && Rest() == []
      ensures r.Chunk? ==>
        && old(Rest()) != []
        && r.data == old(Rest())[..CutPoint(old(Rest()))] && EndsAt(old(Rest()), |r.data|)
        && Rest() == old(Rest())[CutPoint(old(Rest()))..]
      ensures !r.Failed? && !eofSeen ==> Breaks(src.script) == old(Breaks(src.script))
      ensures !r.Failed? && eofSeen ==> old(eofSeen) || !old(Breaks(src.script))
      ensures r.Eof? ==> eofSeen
    {
      hide CutPoint, EndsAt, Content, Breaks, Weight;
      CutPointIff(Rest(), CutPoint(Rest()));
      while limit - pos < MAX_SIZE && !eofSeen
        invariant Valid() && Rest() == old(Rest())
        invariant !eofSeen ==> !old(eofSeen) && Breaks(src.script) == old(Breaks(src.script))
        invariant eofSeen ==> old(eofSeen) || !old(Breaks(src.script))
        decreases !eofSeen, Weight(src.script)
      {
        Shift();
        var failed := Fill();
        if failed {
          return Failed;
        }
      }
      if limit == pos {
        return Eof;
      }
      var data := Emit();
      return Chunk(data);
    }
  }

  lemma SplitFront(s: Bytes, t: Bytes, n: nat)
    requires n <= |s|
    ensures (s + t)[..n] == s[..n] && (s + t)[n..] == s[n..] + t
  {
  }

  lemma ScanStep(s: Bytes, i: nat, h: nat, end: nat)
    requires i < end <= |s|
    ensures Scan(s, i, h, end) == if Boundary(Roll(h, s[i]), i) then i else Scan(s, i + 1, Roll(h, s[i]), end)
  {
  }

  lemma ScanEnd(s: Bytes, h: nat, end: nat)
    requires end <= |s|
    ensures Scan(s, end, h, end) == end
  {
  }

  /** Running the chunker to the end: the blocks depend on the input bytes only. */
  method ChunkAll(script: seq<Event>) returns (blocks: seq<Bytes>, ok: bool)
    ensures ok <==> !Breaks(script)
    ensures ok ==> blocks == Cut(Content(script)) && Flatten(blocks) == Content(script) && EachEnds(Content(script), blocks)
  {
    CutEnds(Content(script));
    hide EachEnds, EndsAt, Flatten, CutPoint, Content, Breaks, Cut, Chunker.Valid, Chunker.Rest;
    CutNothing();
    var src := new Source(script);
    var c := new Chunker(src);
    blocks := [];
    ghost var all := Content(script);
    while true
      invariant c.Valid() && c.src == src && fresh(c) && fresh(src) && fresh(c.buf)
      invariant Cut(all) == blocks + Cut(c.Rest())
      invariant if c.eofSeen then !Breaks(script) else Breaks(src.script) == Breaks(script)
      decreases |c.Rest()|
    {
      ghost var rest := c.Rest();
      var r := c.Next();
      match r {
        case Eof =>
          ok := true;
          assert blocks + [] == blocks;
          return;
        case Failed =>
          ok := false;
          return;
        case Chunk(data) =>
          CutStep(rest);
          AppendBlock(blocks, data, Cut(c.Rest()));
          blocks := blocks + [data];
      }
    }
  }

  lemma CutNothing()
    ensures Cut([]) == []
  {
  }

  lemma AppendBlock(a: seq<Bytes>, x: Bytes, b: seq<Bytes>)
    ensures a + ([x] + b) == a + [x] + b
  {
  }

  lemma CutStep(s: Bytes)
    requires s != []
    ensures Cut(s) == [s[..CutPoint(s)]] + Cut(s[CutPoint(s)..]) && CutPoint(s) > 0
  {
  }

  /** Appending to the input changes no block that ends more than 512 KiB before the old end. */
  lemma {:induction false} AppendKeepsBlocks(s: Bytes, t: Bytes) returns (k: nat)
    ensures k <= |Cut(s)| && k <= |Cut(s + t)| && Cut(s)[..k] == Cut(s + t)[..k]
    ensures |Flatten(Cut(s)[..k])| <= |s| < |Flatten(Cut(s)[..k])| + MAX_SIZE
    decreases |s|
  {
    hide CutPoint;
    if |s| < MAX_SIZE {
      k := 0;
    } else {
      CutPrefix(s, t);
      var c := CutPoint(s);
      assert (s + t)[..c] == s[..c] && (s + t)[c..] == s[c..] + t;
      var k' := AppendKeepsBlocks(s[c..], t);
      k := k' + 1;
      var rest, rest' := Cut(s[c..]), Cut(s[c..] + t);
      assert Cut(s)[..k] == [s[..c]] + rest[..k'] && Cut(s + t)[..k] == [s[..c]] + rest'[..k'];
      assert ([s[..c]] + rest[..k'])[1..] == rest[..k'];
    }
  }
}
