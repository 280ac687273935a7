/** The part of the Protocol Buffers wire format that classifies blocks: DAGNode and its canonical link-only form. */
module Wire {
  import opened Common

  const MAX_FIELD := 0x1FFF_FFFF
  const RECURSION_LIMIT := 10000

  // ---------------------------------------------------------------- varints

  /** Base 128 varint, least significant group first. */
  function Varint(n: nat): (r: Bytes)
    ensures |r| >= 1
    ensures n < 128 ==> r == [n]
  {
    if n < 128 then [n] else [n % 128 + 128] + Varint(n / 128)
  }

  datatype Scan = Scan(value: nat, size: nat)

  /** Decoder limited to ten bytes; `k` bytes were consumed already and the tenth may only be 0 or 1. */
  function VarintFrom(b: Bytes, k: nat): (r: Option<Scan>)
    requires k <= 9
    ensures r.Some? ==> 1 <= r.value.size <= |b|
    decreases 9 - k
  {
    if b == [] then None
    else if k == 9 then (if b[0] < 2 then Some(Scan(b[0], 1)) else None)
    else if b[0] < 128 then Some(Scan(b[0], 1))
    else
      match VarintFrom(b[1..], k + 1)
      case None => None
      case Some(s) => Some(Scan(b[0] - 128 + 128 * s.value, s.size + 1))
  }

  function ConsumeVarint(b: Bytes): (r: Option<Scan>)
    ensures r.Some? ==> 1 <= r.value.size <= |b|
  {
    VarintFrom(b, 0)
  }

  /** Values that still fit after `k` bytes: 2^64 at k = 0, 2 at k = 9. */
  function VarintLimit(k: nat): nat
    requires k <= 9
    decreases 9 - k
  {
    if k == 9 then 2 else 128 * VarintLimit(k + 1)
  }

  lemma {:induction false} VarintRoundTripFrom(n: nat, rest: Bytes, k: nat)
    requires k <= 9 && n < VarintLimit(k)
    ensures VarintFrom(Varint(n) + rest, k) == Some(Scan(n, |Varint(n)|))
    decreases 9 - k
  {
    var b := Varint(n) + rest;
    if n >= 128 {
      assert k != 9;
      VarintRoundTripFrom(n / 128, rest, k + 1);
      assert b[1..] == Varint(n / 128) + rest;
    }
  }

  /** Any 64-bit value survives encoding, whatever follows it. */
  lemma VarintRoundTrip(n: nat, rest: Bytes)
    requires n < 2 * TWO63
    ensures ConsumeVarint(Varint(n) + rest) == Some(Scan(n, |Varint(n)|))
  {
    assert VarintLimit(7) == 0x8000;
    assert VarintLimit(5) == 0x2000_0000;
    assert VarintLimit(3) == 0x800_0000_0000;
    assert VarintLimit(1) == 0x200_0000_0000_0000;
    assert VarintLimit(0) == 2 * TWO63;
    VarintRoundTripFrom(n, rest, 0);
  }

  // ---------------------------------------------------------------- fields

  /** Length-delimited record body: the size of its prefix and of the body. */
  function ConsumeBytes(b: Bytes): (r: Option<Scan>)
    ensures r.Some? ==> r.value.size + r.value.value <= |b| && r.value.size >= 1
  {
    match ConsumeVarint(b)
    case None => None
    case Some(s) => if s.size + s.value <= |b| then Some(s) else None
  }

  /** Size of one field value of the given wire type, unknown fields and groups included. */
  function ConsumeValue(num: nat, wire: nat, b: Bytes, depth: nat): (r: Option<nat>)
    ensures r.Some? ==> r.value <= |b|
    decreases |b|, 1
  {
    if wire == 0 then
      match ConsumeVarint(b)
      case None => None
      case Some(s) => Some(s.size)
    else if wire == 1 then if |b| >= 8 then Some(8) else None
    else if wire == 2 then
      match ConsumeBytes(b)
      case None => None
      case Some(s) => Some(s.size + s.value)
    else if wire == 3 then if depth == 0 then None else ConsumeGroup(num, b, depth - 1)
    else if wire == 5 then if |b| >= 4 then Some(4) else None
    else None
  }

  /** Fields up to and including the end-group tag that matches `num`. */
  function ConsumeGroup(num: nat, b: Bytes, depth: nat): (r: Option<nat>)
    ensures r.Some? ==> r.value <= |b|
    decreases |b|, 0
  {
    match ConsumeVarint(b)
    case None => None
    case Some(tag) =>
      var field, wire, rest := tag.value / 8, tag.value % 8, b[tag.size..];
      if field < 1 || field > 0x7FFF_FFFF then None
      else if wire == 4 then if field == num then Some(tag.size) else None
      else
        match ConsumeValue(field, wire, rest, depth)
        case None => None
        case Some(n) =>
          match ConsumeGroup(num, rest[n..], depth)
          case None => None
          case Some(more) => Some(tag.size + n + more)
  }

  predicate Continuation(b: byte) { 0x80 <= b <= 0xBF }

  predicate Multibyte(s: Bytes, lo: byte, hi: byte, first: byte, last: byte, size: nat)
    requires 2 <= size <= 4
  {
    && |s| >= size && lo <= s[0] <= hi && first <= s[1] <= last
    && (size >= 3 ==> Continuation(s[2])) && (size == 4 ==> Continuation(s[3]))
  }

  /** `utf8.Valid`: shortest forms only, no surrogates, nothing above U+10FFFF. */
  predicate ValidUtf8(s: Bytes) {
    if s == [] then true
    else if s[0] < 0x80 then ValidUtf8(s[1..])
    else if Multibyte(s, 0xC2, 0xDF, 0x80, 0xBF, 2) then ValidUtf8(s[2..])
    else if || Multibyte(s, 0xE0, 0xE0, 0xA0, 0xBF, 3) || Multibyte(s, 0xE1, 0xEC, 0x80, 0xBF, 3)
            || Multibyte(s, 0xED, 0xED, 0x80, 0x9F, 3) || Multibyte(s, 0xEE, 0xEF, 0x80, 0xBF, 3)
    then ValidUtf8(s[3..])
    else if || Multibyte(s, 0xF0, 0xF0, 0x90, 0xBF, 4) || Multibyte(s, 0xF1, 0xF3, 0x80, 0xBF, 4)
            || Multibyte(s, 0xF4, 0xF4, 0x80, 0x8F, 4)
    then ValidUtf8(s[4..])
    else false
  }

  // ---------------------------------------------------------------- DAGNode

  datatype DagNode = DagNode(links: seq<Bytes>, data: Bytes, mid: Bytes)

  /** One decoded record: field number, the body when it is length-delimited, and the bytes it takes. */
  datatype Record = Record(field: nat, body: Option<Bytes>, size: nat)

  /** Decodes the record at the head of `b`; unknown fields of every wire type, groups included, are measured. */
  function NextRecord(b: Bytes): (r: Option<Record>)
    ensures r.Some? ==> 1 <= r.value.size <= |b|
  {
    match ConsumeVarint(b)
    case None => None
    case Some(tag) =>
      var field, wire, rest := tag.value / 8, tag.value % 8, b[tag.size..];
      if field < 1 || field > MAX_FIELD || wire == 4 then None
      else if wire == 2 then
        match ConsumeBytes(rest)
        case None => None
        case Some(s) =>
          Some(Record(field, Some(rest[s.size..s.size + s.value]), tag.size + s.size + s.value))
      else
        match ConsumeValue(field, wire, rest, RECURSION_LIMIT)
        case None => None
        case Some(n) => Some(Record(field, None, tag.size + n))
  }

  /** Effect of one record on a DAGNode: the last scalar wins, unknown fields and wire-type mismatches change nothing. */
  function Absorb(acc: DagNode, rec: Record): Option<DagNode> {
    match rec.body
    case None => Some(acc)
    case Some(body) =>
      if rec.field == 2 then Some(acc.(data := body))
      else if rec.field != 1 && rec.field != 3 then Some(acc)
      else if !ValidUtf8(body) then None
      else if rec.field == 1 then Some(acc.(links := acc.links + [body]))
      else Some(acc.(mid := body))
  }

  /** `proto.Unmarshal` into a DAGNode, merging into `acc`. */
  function Merge(b: Bytes, acc: DagNode): (r: Option<DagNode>)
    decreases |b|
  {
    if b == [] then Some(acc)
    else
      match NextRecord(b)
      case None => None
      case Some(rec) =>
        match Absorb(acc, rec)
        case None => None
        case Some(next) => Merge(b[rec.size..], next)
  }

  function Unmarshal(b: Bytes): Option<DagNode> {
    Merge(b, DagNode([], [], []))
  }

  function LinkRecord(link: Bytes): (r: Bytes)
    ensures |r| >= 2 + |link|
  {
    [0x0A] + Varint(|link|) + link
  }

  /** Canonical form of a node whose only populated field is Links. */
  function MarshalLinks(links: seq<Bytes>): Bytes {
    if links == [] then [] else LinkRecord(links[0]) + MarshalLinks(links[1..])
  }

  predicate AllUtf8(links: seq<Bytes>) {
    forall i :: 0 <= i < |links| ==> ValidUtf8(links[i])
  }

  /** The resolver's classifier: decode leniently, then insist on a byte-exact re-encoding from the links alone. */
  function IsInternalNode(data: Bytes): Option<seq<Bytes>> {
    match Unmarshal(data)
    case None => None
    case Some(node) =>
      if node.links == [] || node.data != [] then None
      else if !AllUtf8(node.links) then None
      else if MarshalLinks(node.links) != data then None
      else Some(node.links)
  }

  lemma Middle(a: Bytes, b: Bytes, c: Bytes)
    ensures (a + (b + c))[|a|..|a| + |b|] == b
  {
  }

  lemma TagByte(tag: byte, rest: Bytes)
    requires tag < 128
    ensures ConsumeVarint([tag] + rest) == Some(Scan(tag, 1))
  {
  }

  /** A record of bytes is read back whatever follows. */
  lemma NextBytesRecord(tag: byte, body: Bytes, rest: Bytes)
    requires 8 <= tag < 128 && tag % 8 == 2 && |body| < TWO63
    ensures
      var b := [tag] + Varint(|body|) + body;
      NextRecord(b + rest) == Some(Record(tag / 8, Some(body), |b|))
  {
    hide Varint, ConsumeVarint;
    var b, after := [tag] + Varint(|body|) + body + rest, Varint(|body|) + (body + rest);
    assert b == [tag] + after;
    TagByte(tag, after);
    assert b[1..] == after;
    VarintRoundTrip(|body|, body + rest);
    Middle(Varint(|body|), body, rest);
  }

  /** The decoder reads back a link record, whatever follows it. */
  lemma NextLinkRecord(link: Bytes, rest: Bytes)
    requires |link| < TWO63
    ensures NextRecord(LinkRecord(link) + rest) == Some(Record(1, Some(link), |LinkRecord(link)|))
  {
    NextBytesRecord(10, link, rest);
  }

  lemma MergeStep(b: Bytes, acc: DagNode, rec: Record, next: DagNode)
    requires NextRecord(b) == Some(rec) && Absorb(acc, rec) == Some(next)
    ensures Merge(b, acc) == Merge(b[rec.size..], next)
  {
  }

  lemma MergeLink(link: Bytes, rest: Bytes, acc: DagNode)
    requires |link| < TWO63 && ValidUtf8(link)
    ensures Merge(LinkRecord(link) + rest, acc) == Merge(rest, acc.(links := acc.links + [link]))
  {
    var rec := Record(1, Some(link), |LinkRecord(link)|);
    NextLinkRecord(link, rest);
    MergeStep(LinkRecord(link) + rest, acc, rec, acc.(links := acc.links + [link]));
    assert (LinkRecord(link) + rest)[rec.size..] == rest;
  }

  lemma {:induction false} MergeLinks(links: seq<Bytes>, acc: DagNode)
    requires AllUtf8(links)
    requires forall i :: 0 <= i < |links| ==> |links[i]| < TWO63
    ensures Merge(MarshalLinks(links), acc) == Some(acc.(links := acc.links + links))
  {
    hide NextRecord;
    if links == [] {
      assert acc.links + links == acc.links;
    } else {
      var next := acc.(links := acc.links + [links[0]]);
      assert MarshalLinks(links) == LinkRecord(links[0]) + MarshalLinks(links[1..]);
      assert ValidUtf8(links[0]) && AllUtf8(links[1..]);
      MergeLink(links[0], MarshalLinks(links[1..]), acc);
      MergeLinks(links[1..], next);
      assert next.links + links[1..] == acc.links + links;
    }
  }

  lemma {:induction false} LinkSizes(links: seq<Bytes>)
    ensures forall i :: 0 <= i < |links| ==> |links[i]| <= |MarshalLinks(links)|
  {
    if links != [] {
      LinkSizes(links[1..]);
      forall i | 0 <= i < |links| ensures |links[i]| <= |MarshalLinks(links)| {
        if i > 0 {
          assert links[i] == links[1..][i - 1];
        }
      }
    }
  }

  /** The classifier accepts exactly the images of the encoder: both directions, for every byte string a Go slice can hold. */
  lemma InternalNodeIffCanonical(data: Bytes, links: seq<Bytes>)
    requires |data| < TWO63
    ensures IsInternalNode(data) == Some(links) <==> links != [] && AllUtf8(links) && data == MarshalLinks(links)
  {
    if links != [] && AllUtf8(links) && data == MarshalLinks(links) {
      LinkSizes(links);
      MergeLinks(links, DagNode([], [], []));
      assert [] + links == links;
    }
  }

  /** Distinct link lists never share an encoding, so neither do distinct internal nodes. */
  lemma {:induction false} MarshalLinksInjective(a: seq<Bytes>, b: seq<Bytes>)
    requires |MarshalLinks(a)| < TWO63
    requires MarshalLinks(a) == MarshalLinks(b)
    ensures a == b
  {
    hide NextRecord;
    if a != [] && b != [] {
      LinkSizes(a);
      LinkSizes(b);
      var ra, rb := MarshalLinks(a[1..]), MarshalLinks(b[1..]);
      NextLinkRecord(a[0], ra);
      NextLinkRecord(b[0], rb);
      assert ra == (LinkRecord(a[0]) + ra)[|LinkRecord(a[0])|..];
      assert rb == (LinkRecord(b[0]) + rb)[|LinkRecord(b[0])|..];
      MarshalLinksInjective(a[1..], b[1..]);
    }
  }

  /** A node over links of one text length is that many records of `2 + w` bytes (w below 128). */
  lemma {:induction false} UniformSize(links: seq<Bytes>, w: nat)
    requires w < 128
    requires forall i :: 0 <= i < |links| ==> |links[i]| == w
    ensures |MarshalLinks(links)| == |links| * (w + 2)
  {
    if links != [] {
      assert Varint(|links[0]|) == [w];
      UniformSize(links[1..], w);
    }
  }

  /** Whether some record of the message has the given field number. */
  predicate HasField(b: Bytes, field: nat)
    decreases |b|
  {
    b != [] &&
    match NextRecord(b)
    case None => false
    case Some(rec) => rec.field == field || HasField(b[rec.size..], field)
  }

  /** A link list has no field but the links. */
  lemma {:induction false} OnlyLinks(links: seq<Bytes>, field: nat)
    requires field != 1 && forall i :: 0 <= i < |links| ==> |links[i]| < TWO63
    ensures !HasField(MarshalLinks(links), field)
  {
    hide NextRecord;
    if links != [] {
      var rest := MarshalLinks(links[1..]);
      NextLinkRecord(links[0], rest);
      assert (LinkRecord(links[0]) + rest)[|LinkRecord(links[0])|..] == rest;
      OnlyLinks(links[1..], field);
    }
  }
}
