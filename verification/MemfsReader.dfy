/** core/memfs/reader.go: the seekable reader over a flattened file. */
module MemfsReader {
  import opened Common

  /** Total size of the first `i` blocks. */
  ghost function Offset(content: seq<Bytes>, i: nat): nat
    requires i <= |content|
  {
    |Flatten(content[..i])|
  }

  lemma OffsetStep(content: seq<Bytes>, i: nat)
    requires i < |content|
    ensures Offset(content, i + 1) == Offset(content, i) + |content[i]| <= |Flatten(content)|
    ensures Flatten(content)[Offset(content, i)..Offset(content, i + 1)] == content[i]
  {
    var front, back := content[..i], content[i + 1..];
    assert content[..i + 1] == front + [content[i]];
    FlattenSnoc(front, content[i]);
    assert content == content[..i + 1] + back;
    FlattenAppend(content[..i + 1], back);
  }

  lemma OffsetEnds(content: seq<Bytes>)
    ensures Offset(content, 0) == 0 && Offset(content, |content|) == |Flatten(content)|
  {
    assert content[..|content|] == content;
  }

  lemma {:induction false} OffsetMonotone(content: seq<Bytes>, i: nat, j: nat)
    requires i <= j <= |content|
    ensures Offset(content, i) <= Offset(content, j)
    decreases j - i
  {
    if i < j {
      OffsetStep(content, i);
      OffsetMonotone(content, i + 1, j);
    }
  }

  /** The position is the size of the blocks passed plus the offset in the current one. */
  ghost predicate Placed(content: seq<Bytes>, pos: nat, cur: nat, buf: Option<Bytes>, used: nat) {
    && cur <= |content|
    && pos == Offset(content, cur) + used
    && match buf
       case None => used == 0
       case Some(b) => cur < |content| && b == content[cur] && used < |b|
  }

  lemma PlacedEnd(content: seq<Bytes>, pos: nat, cur: nat, buf: Option<Bytes>, used: nat)
    requires Placed(content, pos, cur, buf, used) && forall i :: 0 <= i < |content| ==> content[i] != []
    ensures cur <= |content| && pos <= |Flatten(content)|
    ensures pos == |Flatten(content)| <==> cur == |content|
  {
    OffsetEnds(content);
    OffsetMonotone(content, cur, |content|);
    if cur < |content| {
      OffsetStep(content, cur);
      OffsetMonotone(content, cur + 1, |content|);
    }
  }

  lemma NoBufferNoOffset(content: seq<Bytes>, pos: nat, cur: nat, used: nat)
    requires Placed(content, pos, cur, None, used)
    ensures used == 0
  {
  }

  lemma BufferIsBlock(content: seq<Bytes>, pos: nat, cur: nat, b: Bytes, used: nat)
    requires Placed(content, pos, cur, Some(b), used)
    ensures cur < |content| && b == content[cur] && used < |b|
  {
  }

  lemma PlacedFetch(content: seq<Bytes>, pos: nat, cur: nat)
    requires Placed(content, pos, cur, None, 0) && cur < |content| && content[cur] != []
    ensures Placed(content, pos, cur, Some(content[cur]), 0)
  {
  }

  /** Consuming `n` bytes of the current block. */
  lemma PlacedAdvance(content: seq<Bytes>, pos: nat, cur: nat, b: Bytes, used: nat, n: nat)
    requires Placed(content, pos, cur, Some(b), used) && used + n <= |b|
    ensures pos + n <= |Flatten(content)| && b[used..used + n] == Flatten(content)[pos..pos + n]
    ensures used + n < |b| ==> Placed(content, pos + n, cur, Some(b), used + n)
    ensures used + n == |b| ==> Placed(content, pos + n, cur + 1, None, 0)
  {
    OffsetStep(content, cur);
    BlockSlice(content, cur, used, n);
  }

  /** Go's `copy`. */
  method Copy(dst: array<byte>, src: Bytes) returns (n: nat)
    modifies dst
    ensures n == Min(dst.Length, |src|)
    ensures dst[..n] == src[..n] && dst[n..] == old(dst[n..])
  {
    n := Min(dst.Length, |src|);
    forall i | 0 <= i < n {
      dst[i] := src[i];
    }
  }

  datatype ReadResult = Got(n: nat) | Eof | ReadFailed(block: nat)
  datatype SeekError = InvalidWhence | Negative | BlockFailed(block: nat)

  const SEEK_START := 0
  const SEEK_CURRENT := 1
  const SEEK_END := 2

  /** Offsets are added in 64 bits. */
  function Wrap(x: int): i64 { (x + TWO63) % TWO64 - TWO63 }

  /** A sum that fits is kept; one that is too large by less than a full turn comes out negative. */
  lemma WrapFacts(x: int)
    ensures -TWO63 <= x < TWO63 ==> Wrap(x) == x
    ensures TWO63 <= x < TWO64 ==> Wrap(x) < 0
  {
  }

  class Reader {
    const bs: map<Mid, Bytes>
    const blocks: seq<Mid>
    const fileSize: nat
    ghost const content: seq<Bytes>
    var pos: nat
    var cur: nat
    var buf: Option<Bytes>
    var bufUsed: nat

    /** The flat byte string the reader stands for. */
    ghost function Flat(): Bytes { Flatten(content) }

    /** `content` is what the blocks hold, as far as they are present; FileSize is its total; and the position is
        the size of the blocks passed plus the offset in the current one. */
    ghost predicate Valid()
      reads this
    {
      && |content| == |blocks| && fileSize == |Flatten(content)| < TWO63
      && (forall i :: 0 <= i < |blocks| ==> content[i] != [])
      && (forall i :: 0 <= i < |blocks| && blocks[i] in bs ==> bs[blocks[i]] == content[i])
      && Placed(content, pos, cur, buf, bufUsed)
    }

    constructor (bs: map<Mid, Bytes>, blocks: seq<Mid>, ghost content: seq<Bytes>, fileSize: nat)
      requires |content| == |blocks| && fileSize == |Flatten(content)| < TWO63
      requires forall i :: 0 <= i < |blocks| ==> content[i] != []
      requires forall i :: 0 <= i < |blocks| && blocks[i] in bs ==> bs[blocks[i]] == content[i]
      ensures Valid() && pos == 0 && this.content == content && this.bs == bs && this.blocks == blocks
      ensures this.fileSize == fileSize
    {
      this.bs, this.blocks, this.content, this.fileSize := bs, blocks, content, fileSize;
      pos, cur, buf, bufUsed := 0, 0, None, 0;
      OffsetEnds(content);
    }

    /** Read delivers the bytes at the cursor into the front of `p` and moves the cursor past them; it stops at the
        end of a block, makes progress unless `p` is empty, reports EOF exactly at the end, and fails only when the
        current block is missing, without moving. */
    method Read(p: array<byte>) returns (r: ReadResult)
      requires Valid()
      modifies this`pos, this`cur, this`buf, this`bufUsed, p
      ensures Valid()
      ensures r.Eof? <==> old(pos) == fileSize
      ensures r.ReadFailed? ==> r.block < |blocks| && blocks[r.block] !in bs
      ensures !r.Got? ==> pos == old(pos) && p[..] == old(p[..])
      ensures r.Got? ==>
        && r.n <= p.Length && pos == old(pos) + r.n <= fileSize
        && p[..r.n] == Flat()[old(pos)..pos]
        && p[r.n..] == old(p[r.n..])
        && (p.Length > 0 ==> r.n > 0)
    {
      hide Placed, Flatten;
      PlacedEnd(content, pos, cur, buf, bufUsed);
      if pos >= fileSize {
        return Eof;
      }
      if cur >= |blocks| {
        return Eof;
      }
      if buf.None? {
        if blocks[cur] !in bs {
          return ReadFailed(cur);
        }
        NoBufferNoOffset(content, pos, cur, bufUsed);
        PlacedFetch(content, pos, cur);
        buf, bufUsed := Some(bs[blocks[cur]]), 0;
      }
      var n := Deliver(p);
      return Got(n);
    }

    /** The rest of the current block goes to the front of `p`, as far as it fits. */
    method Deliver(p: array<byte>) returns (n: nat)
      requires Valid() && buf.Some?
      modifies this`pos, this`cur, this`buf, this`bufUsed, p
      ensures Valid() && n <= p.Length && (p.Length > 0 ==> n > 0)
      ensures pos == old(pos) + n <= fileSize
      ensures p[..n] == Flat()[old(pos)..pos] && p[n..] == old(p[n..])
    {
      hide Placed, Flatten;
      ghost var from, block, b := pos, cur, buf.value;
      BufferIsBlock(content, pos, cur, b, bufUsed);
      n := Copy(p, buf.value[bufUsed..]);
      PlacedAdvance(content, from, block, b, bufUsed, n);
      assert b[bufUsed..][..n] == b[bufUsed..bufUsed + n];
      bufUsed, pos := bufUsed + n, pos + n;
      if bufUsed >= |buf.value| {
        cur, buf, bufUsed := cur + 1, None, 0;
      }
    }

    /** Seek moves the cursor to the requested target, clamped to the file size, exactly as long as the target fits int64;
        beyond that the sum turns negative and is refused, and so is a target before the start. On any error, a missing
        block on the way included, nothing moves. */
    method Seek(offset: i64, whence: int) returns (r: Result<nat, SeekError>)
      requires Valid()
      modifies this`pos, this`cur, this`buf, this`bufUsed
      ensures Valid()
      ensures
        var target := Target(old(pos), offset, whence);
        && (target.None? ==> r == Err(InvalidWhence))
        && (target.Some? && !(0 <= target.value < TWO63) ==> r == Err(Negative))
        && (target.Some? && 0 <= target.value < TWO63 ==>
              || r == Ok(Min(target.value, fileSize))
              || (r.Err? && r.error.BlockFailed? && r.error.block < |blocks| && blocks[r.error.block] !in bs))
      ensures r.Ok? ==> pos == r.value
      ensures r.Err? ==> pos == old(pos) && cur == old(cur) && buf == old(buf) && bufUsed == old(bufUsed)
    {
      hide Flatten, Wrap;
      PosInside();
      var target: i64;
      if whence == SEEK_START {
        target := offset;
      } else if whence == SEEK_CURRENT {
        WrapFacts(pos + offset);
        target := Wrap(pos + offset);
      } else if whence == SEEK_END {
        WrapFacts(fileSize + offset);
        target := Wrap(fileSize + offset);
      } else {
        return Err(InvalidWhence);
      }
      if target < 0 {
        return Err(Negative);
      }
      if target == pos {
        return Ok(pos);
      }
      OffsetEnds(content);
      var i, sum, missing := BlockAt(target);
      if missing {
        return Err(BlockFailed(i));
      }
      if i == |blocks| {
        cur, buf, bufUsed, pos := |blocks|, None, 0, fileSize;
        return Ok(pos);
      }
      OffsetStep(content, i);
      cur, buf, bufUsed, pos := i, Some(bs[blocks[i]]), target - sum, target;
      return Ok(pos);
    }

    /** The walk along the blocks to the one that holds `target`, reading each for its size. */
    method BlockAt(target: nat) returns (i: nat, sum: nat, missing: bool)
      requires Valid()
      ensures i <= |blocks| && sum == Offset(content, i) <= target
      ensures missing ==> i < |blocks| && blocks[i] !in bs
      ensures !missing && i < |blocks| ==> blocks[i] in bs && target < sum + |content[i]|
    {
      hide Flatten, Placed;
      i, sum, missing := 0, 0, false;
      OffsetEnds(content);
      while i < |blocks|
        invariant i <= |blocks| && sum == Offset(content, i) <= target
      {
        if blocks[i] !in bs {
          missing := true;
          return;
        }
        OffsetStep(content, i);
        var size := |bs[blocks[i]]|;
        if target < sum + size {
          return;
        }
        sum := sum + size;
        i := i + 1;
      }
    }

    /** The target asked for, without the limits of int64. */
    ghost function Target(from: nat, offset: int, whence: int): Option<int> {
      if whence == SEEK_START then Some(offset)
      else if whence == SEEK_CURRENT then Some(from + offset)
      else if whence == SEEK_END then Some(fileSize + offset)
      else None
    }

    lemma PosInside()
      requires Valid()
      ensures pos <= fileSize
    {
      PlacedEnd(content, pos, cur, buf, bufUsed);
    }

    /** Draining the reader with any buffer, from any reachable state, yields the rest of the flat byte string. */
    method ReadAll(p: array<byte>) returns (out: Bytes)
      requires Valid() && p.Length > 0
      requires forall i :: 0 <= i < |blocks| ==> blocks[i] in bs
      modifies this`pos, this`cur, this`buf, this`bufUsed, p
      ensures Valid() && old(pos) <= fileSize
      ensures out == Flat()[old(pos)..] && pos == fileSize
    {
      out := [];
      PosInside();
      while true
        invariant Valid() && old(pos) <= pos <= fileSize
        invariant out == Flat()[old(pos)..pos]
        decreases fileSize - pos
      {
        ghost var before := pos;
        var r := Read(p);
        if !r.Got? {
          return;
        }
        out := out + p[..r.n];
        assert Flat()[old(pos)..pos] == Flat()[old(pos)..before] + Flat()[before..pos];
      }
    }
  }

  /** Past the first byte, the largest relative offset is refused instead of clamped to the end. */
  method SeekTooFar(reader: Reader) returns (r: Result<nat, SeekError>)
    requires reader.Valid() && reader.pos > 0
    modifies reader`pos, reader`cur, reader`buf, reader`bufUsed
    ensures r == Err(Negative) && reader.pos == old(reader.pos)
  {
    reader.PosInside();
    r := reader.Seek(TWO63 - 1, SEEK_CURRENT);
  }

  lemma SubSlice(s: Bytes, a: nat, b: nat, x: nat, y: nat)
    requires a <= b <= |s| && x <= y <= b - a
    ensures s[a..b][x..y] == s[a + x..a + y]
  {
    var l, r := s[a..b][x..y], s[a + x..a + y];
    assert forall i :: 0 <= i < y - x ==> l[i] == s[a..b][x + i] == s[a + x + i] == r[i];
    assert l == r;
  }

  lemma BlockSlice(content: seq<Bytes>, i: nat, from: nat, n: nat)
    requires i < |content| && from + n <= |content[i]|
    ensures Offset(content, i) + from + n <= |Flatten(content)|
    ensures content[i][from..from + n] == Flatten(content)[Offset(content, i) + from..Offset(content, i) + from + n]
  {
    hide Offset, Flatten;
    OffsetStep(content, i);
    SubSlice(Flatten(content), Offset(content, i), Offset(content, i + 1), from, from + n);
  }
}
