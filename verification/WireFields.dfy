/** The wire format from the encoder's side: records of every wire type, and UTF-8 by code points (RFC 3629, section 3). */
module WireFields {
  import opened Common
  import opened Wire

  // ------------------------------------------------------------- varints

  /** Seven bits a byte, the low ones first. */
  function Sevens(s: Bytes): nat { if s == [] then 0 else Sevens(s[1..]) * 128 + s[0] as int % 128 }

  /** The varint at the head of the input, shortest form or not: it ends at the first byte below 128, within ten bytes,
      and fits in 64 bits. */
  lemma VarintReadIff(b: Bytes, n: nat)
    ensures ConsumeVarint(b).Some? && ConsumeVarint(b).value.size == n <==>
      && 1 <= n <= 10 && n <= |b| && b[n - 1] < 128 && (forall i :: 0 <= i < n - 1 ==> b[i] >= 128) && (n == 10 ==> b[9] < 2)
    ensures ConsumeVarint(b).Some? ==> ConsumeVarint(b).value.value == Sevens(b[..ConsumeVarint(b).value.size])
  {
    VarintFromIff(b, 0, n);
    VarintValue(b, 0);
  }

  lemma {:induction false} VarintFromIff(b: Bytes, k: nat, n: nat)
    requires k <= 9
    ensures VarintFrom(b, k).Some? && VarintFrom(b, k).value.size == n <==>
      && 1 <= n <= 10 - k && n <= |b| && b[n - 1] < 128 && (forall i :: 0 <= i < n - 1 ==> b[i] >= 128)
      && (n == 10 - k ==> b[9 - k] < 2)
    decreases 9 - k
  {
    if b != [] && k < 9 && b[0] >= 128 {
      VarintFromIff(b[1..], k + 1, if n > 0 then n - 1 else 0);
    }
  }

  lemma {:induction false} VarintValue(b: Bytes, k: nat)
    requires k <= 9
    ensures VarintFrom(b, k).Some? ==> VarintFrom(b, k).value.value == Sevens(b[..VarintFrom(b, k).value.size])
    decreases 9 - k
  {
    if b != [] && k < 9 && b[0] >= 128 {
      VarintValue(b[1..], k + 1);
      var r := VarintFrom(b[1..], k + 1);
      if r.Some? {
        assert b[..r.value.size + 1][1..] == b[1..][..r.value.size];
      }
    } else if b != [] {
      assert b[..1][1..] == [] && Sevens(b[..1]) == b[0] as int % 128;
    }
  }

  // ------------------------------------------------------------- records

  /** A field as any encoder may write it; groups nest. */
  datatype Field =
    | VarintField(num: nat, value: nat)
    | Fixed64Field(num: nat, bytes: Bytes)
    | BytesField(num: nat, body: Bytes)
    | GroupField(num: nat, fields: seq<Field>)
    | Fixed32Field(num: nat, bytes: Bytes)

  /** What the field puts after its tag. */
  function Body(f: Field): Bytes
    decreases f, 0
  {
    match f
    case VarintField(_, value) => Varint(value)
    case Fixed64Field(_, bytes) => bytes
    case BytesField(_, body) => Varint(|body|) + body
    case GroupField(num, fields) => Encode(fields) + Varint(8 * num + 4)
    case Fixed32Field(_, bytes) => bytes
  }

  function WireType(f: Field): nat {
    match f case VarintField(_, _) => 0 case Fixed64Field(_, _) => 1 case BytesField(_, _) => 2
            case GroupField(_, _) => 3 case Fixed32Field(_, _) => 5
  }

  function EncodeField(f: Field): (b: Bytes)
    ensures b != []
    decreases f, 1
  {
    Varint(8 * f.num + WireType(f)) + Body(f)
  }

  function Encode(fs: seq<Field>): Bytes
    decreases fs
  {
    if fs == [] then [] else EncodeField(fs[0]) + Encode(fs[1..])
  }

  /** Field numbers, sizes and nesting that the format allows. */
  predicate WellFormed(f: Field, depth: nat)
    decreases f
  {
    && 1 <= f.num <= 0x1FFF_FFFF
    && match f
       case VarintField(_, value) => value < 0x1_0000_0000_0000_0000
       case Fixed64Field(_, bytes) => |bytes| == 8
       case BytesField(_, body) => |body| < TWO63
       case GroupField(_, fields) => depth > 0 && forall i :: 0 <= i < |fields| ==> WellFormed(fields[i], depth - 1)
       case Fixed32Field(_, bytes) => |bytes| == 4
  }

  lemma FrontSlice(a: Bytes, b: Bytes)
    ensures (a + b)[|a|..] == b && (a + b)[..|a|] == a
  {
  }

  /** The decoder measures any field value, whatever follows it. */
  lemma {:induction false} ValueMeasured(f: Field, rest: Bytes, depth: nat)
    requires WellFormed(f, depth)
    ensures ConsumeValue(f.num, WireType(f), Body(f) + rest, depth) == Some(|Body(f)|)
    decreases f, 1
  {
    hide Varint, ConsumeVarint, ConsumeGroup;
    match f {
      case VarintField(_, value) => VarintRoundTrip(value, rest);
      case Fixed64Field(_, bytes) =>
      case BytesField(_, body) =>
        assert Body(f) + rest == Varint(|body|) + (body + rest);
        VarintRoundTrip(|body|, body + rest);
      case GroupField(num, fields) =>
        GroupMeasured(num, fields, rest, depth - 1);
      case Fixed32Field(_, bytes) =>
    }
  }

  lemma {:induction false} GroupMeasured(num: nat, fields: seq<Field>, rest: Bytes, depth: nat)
    requires 1 <= num <= 0x1FFF_FFFF && forall i :: 0 <= i < |fields| ==> WellFormed(fields[i], depth)
    ensures
      var body := Encode(fields) + Varint(8 * num + 4);
      ConsumeGroup(num, body + rest, depth) == Some(|body|)
    decreases fields, 0
  {
    hide *;
    var close := Varint(8 * num + 4);
    if fields == [] {
      EncodeNothing(fields, close);
      TagRoundTrip(num, 4, rest);
      GroupEnds(num, close + rest, depth, |close|);
    } else {
      var f, more := fields[0], fields[1..];
      var tail := Encode(more) + close + rest;
      ValueMeasured(f, tail, depth);
      assert forall i :: 0 <= i < |more| ==> more[i] == fields[i + 1];
      GroupMeasured(num, more, rest, depth);
      InFormat(f, depth);
      TagRead(f, tail);
      FrontSlice(Body(f), tail);
      EncodeCons(fields, close, rest);
      NoEnd(f);
      TagParts(f.num, WireType(f));
      GroupGoesOn(num, EncodeField(f) + tail, depth, 8 * f.num + WireType(f), |Varint(8 * f.num + WireType(f))|, |Body(f)|,
                  |Encode(more) + close|);
    }
  }

  lemma TagRoundTrip(num: nat, wire: nat, rest: Bytes)
    requires num <= 0x1FFF_FFFF && wire < 8
    ensures ConsumeVarint(Varint(8 * num + wire) + rest) == Some(Scan(8 * num + wire, |Varint(8 * num + wire)|))
  {
    VarintRoundTrip(8 * num + wire, rest);
  }

  lemma EncodeNothing(fields: seq<Field>, close: Bytes)
    requires fields == []
    ensures Encode(fields) + close == close
  {
  }

  lemma EncodeCons(fields: seq<Field>, close: Bytes, rest: Bytes)
    requires fields != []
    ensures Encode(fields) + close + rest == EncodeField(fields[0]) + (Encode(fields[1..]) + close + rest)
    ensures |Encode(fields) + close| == |EncodeField(fields[0])| + |Encode(fields[1..]) + close|
  {
    hide EncodeField;
  }

  /** The tag of a field, read off the front. */
  lemma TagRead(f: Field, tail: Bytes)
    requires 1 <= f.num <= 0x1FFF_FFFF
    ensures
      var b, tag := EncodeField(f) + tail, Varint(8 * f.num + WireType(f));
      && |tag| <= |b| && ConsumeVarint(b) == Some(Scan(8 * f.num + WireType(f), |tag|))
      && b[|tag|..] == Body(f) + tail && |EncodeField(f)| == |tag| + |Body(f)|
  {
    hide Varint, ConsumeVarint, Body;
    var tag := Varint(8 * f.num + WireType(f));
    VarintRoundTrip(8 * f.num + WireType(f), Body(f) + tail);
    Regrouped(tag, Body(f), tail);
  }

  lemma Regrouped(a: Bytes, b: Bytes, c: Bytes)
    ensures a + b + c == a + (b + c) && (a + b + c)[|a|..] == b + c
  {
  }

  lemma GroupEnds(num: nat, b: Bytes, depth: nat, size: nat)
    requires 1 <= num <= 0x1FFF_FFFF && ConsumeVarint(b) == Some(Scan(8 * num + 4, size))
    ensures ConsumeGroup(num, b, depth) == Some(size)
  {
    hide ConsumeVarint, ConsumeValue;
    TagParts(num, 4);
  }

  lemma GroupGoesOn(num: nat, b: Bytes, depth: nat, tag: nat, size: nat, n: nat, more: nat)
    requires 1 <= tag / 8 <= 0x1FFF_FFFF && tag % 8 != 4 && size <= |b| && n <= |b| - size
    requires ConsumeVarint(b) == Some(Scan(tag, size))
    requires ConsumeValue(tag / 8, tag % 8, b[size..], depth) == Some(n)
    requires ConsumeGroup(num, b[size..][n..], depth) == Some(more)
    ensures ConsumeGroup(num, b, depth) == Some(size + n + more)
  {
    hide ConsumeVarint, ConsumeValue;
  }

  lemma GroupFails(num: nat, b: Bytes, depth: nat, tag: nat, size: nat, n: nat)
    requires 1 <= tag / 8 <= 0x1FFF_FFFF && tag % 8 != 4 && size <= |b| && n <= |b| - size
    requires ConsumeVarint(b) == Some(Scan(tag, size))
    requires ConsumeValue(tag / 8, tag % 8, b[size..], depth) == Some(n)
    requires ConsumeGroup(num, b[size..][n..], depth) == None
    ensures ConsumeGroup(num, b, depth) == None
  {
    hide ConsumeVarint, ConsumeValue;
  }

  lemma OtherEnd(num: nat, other: nat, rest: Bytes, depth: nat)
    requires num != other && other <= 0x1FFF_FFFF
    ensures ConsumeGroup(num, Varint(8 * other + 4) + rest, depth) == None
  {
    hide ConsumeVarint, ConsumeValue, Varint;
    TagRoundTrip(other, 4, rest);
    TagParts(other, 4);
  }

  /** A group must be closed under its own number. */
  lemma {:induction false} WrongEndRefused(num: nat, other: nat, fields: seq<Field>, rest: Bytes, depth: nat)
    requires num != other && other <= 0x1FFF_FFFF && forall i :: 0 <= i < |fields| ==> WellFormed(fields[i], depth)
    ensures ConsumeGroup(num, Encode(fields) + Varint(8 * other + 4) + rest, depth) == None
    decreases |fields|
  {
    hide *;
    var close := Varint(8 * other + 4);
    if fields == [] {
      EncodeNothing(fields, close);
      OtherEnd(num, other, rest, depth);
    } else {
      var f, more := fields[0], fields[1..];
      var tail := Encode(more) + close + rest;
      ValueMeasured(f, tail, depth);
      assert forall i :: 0 <= i < |more| ==> more[i] == fields[i + 1];
      WrongEndRefused(num, other, more, rest, depth);
      InFormat(f, depth);
      TagRead(f, tail);
      FrontSlice(Body(f), tail);
      EncodeCons(fields, close, rest);
      NoEnd(f);
      TagParts(f.num, WireType(f));
      GroupFails(num, EncodeField(f) + tail, depth, 8 * f.num + WireType(f), |Varint(8 * f.num + WireType(f))|, |Body(f)|);
    }
  }

  lemma NoEnd(f: Field)
    ensures WireType(f) != 4 && WireType(f) < 8
  {
  }

  lemma TagParts(num: nat, wire: nat)
    requires wire < 8
    ensures (8 * num + wire) / 8 == num && (8 * num + wire) % 8 == wire
  {
  }

  /** The record at the head of the input: its number, its body if it has one, and its exact size. */
  lemma RecordRead(f: Field, rest: Bytes)
    requires WellFormed(f, 10000)
    ensures NextRecord(EncodeField(f) + rest)
         == Some(Record(f.num, if f.BytesField? then Some(f.body) else None, |EncodeField(f)|))
  {
    hide Varint, ConsumeVarint, ConsumeValue, ConsumeBytes, EncodeField, WellFormed, Encode;
    InFormat(f, 10000);
    TagRead(f, rest);
    TagParts(f.num, WireType(f));
    if f.BytesField? {
      BodyRead(f.body, rest);
    } else {
      ValueMeasured(f, rest, 10000);
    }
  }

  lemma InFormat(f: Field, depth: nat)
    requires WellFormed(f, depth)
    ensures 1 <= f.num <= 0x1FFF_FFFF && (f.BytesField? ==> |f.body| < TWO63)
  {
  }

  lemma BodyRead(body: Bytes, rest: Bytes)
    requires |body| < TWO63
    ensures
      var size := |Varint(|body|)|;
      var b := Varint(|body|) + body + rest;
      ConsumeBytes(b) == Some(Scan(|body|, size)) && b[size..size + |body|] == body
  {
    hide Varint, ConsumeVarint;
    var size := Varint(|body|);
    Regrouped(size, body, rest);
    VarintRoundTrip(|body|, body + rest);
    Middle(size, body, rest);
  }

  /** Numbers outside the format's range, and a group end that ends nothing, are refused. */
  lemma BadTagRefused(num: nat, wire: nat, rest: Bytes)
    requires wire < 8 && 8 * num + wire < 2 * TWO63 && (num < 1 || num > 0x1FFF_FFFF || wire == 4 || wire == 6 || wire == 7)
    ensures NextRecord(Varint(8 * num + wire) + rest) == None
  {
    hide Varint, ConsumeVarint, ConsumeGroup;
    VarintRoundTrip(8 * num + wire, rest);
    TagParts(num, wire);
  }

  // ------------------------------------------------------------- the node

  /** Bodies of the records of one number, in order. */
  function Bodies(fs: seq<Field>, num: nat): seq<Bytes> {
    if fs == [] then []
    else (if fs[0].BytesField? && fs[0].num == num then [fs[0].body] else []) + Bodies(fs[1..], num)
  }

  function LastOr(bodies: seq<Bytes>, otherwise: Bytes): Bytes {
    if bodies == [] then otherwise else bodies[|bodies| - 1]
  }

  /** The records that must be text are. */
  predicate Textual(fs: seq<Field>) {
    forall i :: 0 <= i < |fs| && fs[i].BytesField? && (fs[i].num == 1 || fs[i].num == 3) ==> ValidUtf8(fs[i].body)
  }

  lemma AbsorbIs(acc: DagNode, f: Field)
    ensures Absorb(acc, Record(f.num, if f.BytesField? then Some(f.body) else None, |EncodeField(f)|)) ==
      if Textual([f])
      then Some(DagNode(acc.links + Bodies([f], 1), LastOr(Bodies([f], 2), acc.data), LastOr(Bodies([f], 3), acc.mid)))
      else None
  {
    hide ValidUtf8, EncodeField;
    assert [f][1..] == [];
    assert Textual([f]) <==> (f.BytesField? && (f.num == 1 || f.num == 3) ==> ValidUtf8(f.body)) by {
      assert [f][0] == f;
    }
    if f.BytesField? {
      forall n: nat ensures Bodies([f], n) == if f.num == n then [f.body] else [] {
        assert Bodies([f], n) == (if f.num == n then [f.body] else []) + Bodies([], n);
      }
    }
    assert acc.links + [] == acc.links;
  }

  lemma Cons(f: Field, more: seq<Field>)
    ensures forall n: nat :: Bodies([f] + more, n) == Bodies([f], n) + Bodies(more, n)
    ensures Textual([f] + more) <==> Textual([f]) && Textual(more)
    ensures Encode([f] + more) == EncodeField(f) + Encode(more)
  {
    hide EncodeField, ValidUtf8;
    var fs := [f] + more;
    assert fs[1..] == more && [f][1..] == [];
    forall n: nat ensures Bodies(fs, n) == Bodies([f], n) + Bodies(more, n) {
      assert Bodies([f], n) == (if f.BytesField? && f.num == n then [f.body] else []) + [];
    }
    if Textual(fs) {
      assert fs[0] == f && forall i :: 0 <= i < |more| ==> more[i] == fs[i + 1];
    }
  }

  lemma LastOrAppend(a: seq<Bytes>, b: seq<Bytes>, otherwise: Bytes)
    ensures LastOr(a + b, otherwise) == LastOr(b, LastOr(a, otherwise))
  {
  }

  /** What a list of fields makes of a node. */
  function Absorbed(acc: DagNode, fs: seq<Field>): DagNode {
    DagNode(acc.links + Bodies(fs, 1), LastOr(Bodies(fs, 2), acc.data), LastOr(Bodies(fs, 3), acc.mid))
  }

  lemma AbsorbedCons(acc: DagNode, f: Field, more: seq<Field>)
    ensures Absorbed(acc, [f] + more) == Absorbed(Absorbed(acc, [f]), more)
  {
    hide Bodies, LastOr;
    Cons(f, more);
    LastOrAppend(Bodies([f], 2), Bodies(more, 2), acc.data);
    LastOrAppend(Bodies([f], 3), Bodies(more, 3), acc.mid);
    assert acc.links + (Bodies([f], 1) + Bodies(more, 1)) == acc.links + Bodies([f], 1) + Bodies(more, 1);
  }

  lemma {:induction false} MergeFields(fs: seq<Field>, acc: DagNode)
    requires forall i :: 0 <= i < |fs| ==> WellFormed(fs[i], 10000)
    ensures Merge(Encode(fs), acc) == if Textual(fs) then Some(Absorbed(acc, fs)) else None
  {
    hide NextRecord, Textual, WellFormed, EncodeField, Absorb, Absorbed;
    if fs == [] {
      NoFields(acc);
    } else {
      var f, more := fs[0], fs[1..];
      assert fs == [f] + more;
      RecordRead(f, Encode(more));
      FrontSlice(EncodeField(f), Encode(more));
      Cons(f, more);
      AbsorbIs(acc, f);
      AbsorbedIs(acc, f);
      AbsorbedCons(acc, f, more);
      if Textual([f]) {
        MergeFields(more, Absorbed(acc, [f]));
      }
    }
  }

  lemma NoFields(acc: DagNode)
    ensures Textual([]) && Absorbed(acc, []) == acc
  {
    assert acc.links + [] == acc.links;
  }

  lemma AbsorbedIs(acc: DagNode, f: Field)
    ensures Absorbed(acc, [f])
         == DagNode(acc.links + Bodies([f], 1), LastOr(Bodies([f], 2), acc.data), LastOr(Bodies([f], 3), acc.mid))
  {
  }

  /** Decoding any sequence of fields as a DAGNode: fields 1 are the links, in order; the last field 2 is the data and the last
      field 3 the MID; everything else, of every wire type and however nested, is passed over; links and MID must be text. */
  lemma UnmarshalFields(fs: seq<Field>)
    requires forall i :: 0 <= i < |fs| ==> WellFormed(fs[i], 10000)
    ensures Unmarshal(Encode(fs)) ==
      if Textual(fs) then Some(DagNode(Bodies(fs, 1), LastOr(Bodies(fs, 2), []), LastOr(Bodies(fs, 3), []))) else None
  {
    MergeFields(fs, DagNode([], [], []));
    assert [] + Bodies(fs, 1) == Bodies(fs, 1);
  }

  // --------------------------------------------------------------- UTF-8

  predicate Scalar(c: nat) { c <= 0x10FFFF && !(0xD800 <= c <= 0xDFFF) }

  function Rune(c: nat): Bytes
    requires Scalar(c)
  {
    if c < 0x80 then [c]
    else if c < 0x800 then [0xC0 + c / 64, 0x80 + c % 64]
    else if c < 0x10000 then [0xE0 + c / 64 / 64, 0x80 + c / 64 % 64, 0x80 + c % 64]
    else [0xF0 + c / 64 / 64 / 64, 0x80 + c / 64 / 64 % 64, 0x80 + c / 64 % 64, 0x80 + c % 64]
  }

  function Text(cs: seq<nat>): Bytes
    requires forall i :: 0 <= i < |cs| ==> Scalar(cs[i])
  {
    if cs == [] then [] else Rune(cs[0]) + Text(cs[1..])
  }

  lemma RuneIsValid(c: nat, rest: Bytes)
    requires Scalar(c) && ValidUtf8(rest)
    ensures ValidUtf8(Rune(c) + rest)
  {
    var s := Rune(c) + rest;
    FrontSlice(Rune(c), rest);
  }

  lemma {:induction false} TextIsValid(cs: seq<nat>)
    requires forall i :: 0 <= i < |cs| ==> Scalar(cs[i])
    ensures ValidUtf8(Text(cs))
  {
    hide Rune, ValidUtf8;
    if cs == [] {
      NoText();
    } else {
      TextIsValid(cs[1..]);
      RuneIsValid(cs[0], Text(cs[1..]));
    }
  }

  lemma NoText()
    ensures ValidUtf8([])
  {
  }

  lemma Digit(q: nat, r: nat)
    requires r < 64
    ensures (64 * q + r) / 64 == q && (64 * q + r) % 64 == r
  {
  }

  /** Six more bits. */
  function Shift6(q: nat, b: byte): nat
    requires b >= 0x80
  {
    64 * q + (b - 0x80) as int
  }

  lemma Shifted(q: nat, b: byte)
    requires Continuation(b)
    ensures Shift6(q, b) / 64 == q && 0x80 + Shift6(q, b) % 64 == b
  {
    Digit(q, (b - 0x80) as int);
  }

  lemma Tails(s: Bytes, n: nat)
    requires s != [] && ValidUtf8(s) && n == (if s[0] < 0x80 then 1 else if s[0] < 0xE0 then 2 else if s[0] < 0xF0 then 3 else 4)
    ensures |s| >= n && ValidUtf8(s[n..]) && forall i :: 1 <= i < n ==> Continuation(s[i])
    ensures n == 2 ==> 0xC2 <= s[0]
    ensures n == 3 ==> 0xE0 <= s[0] && (s[0] == 0xE0 ==> s[1] >= 0xA0) && (s[0] == 0xED ==> s[1] <= 0x9F)
    ensures n == 4 ==> 0xF0 <= s[0] <= 0xF4 && (s[0] == 0xF0 ==> s[1] >= 0x90) && (s[0] == 0xF4 ==> s[1] <= 0x8F)
  {
  }

  lemma FirstRune(s: Bytes) returns (c: nat)
    requires s != [] && ValidUtf8(s)
    ensures Scalar(c) && Rune(c) <= s && ValidUtf8(s[|Rune(c)|..])
  {
    var a: int, n := s[0], if s[0] < 0x80 then 1 else if s[0] < 0xE0 then 2 else if s[0] < 0xF0 then 3 else 4;
    Tails(s, n);
    hide ValidUtf8, Shift6;
    if n == 1 {
      c := a;
    } else {
      var q := a - (if n == 2 then 0xC0 else if n == 3 then 0xE0 else 0xF0);
      c := Shift6(q, s[1]);
      Shifted(q, s[1]);
      ShiftBounds(q, s[1]);
      if n > 2 {
        var c2 := Shift6(c, s[2]);
        Shifted(c, s[2]);
        ShiftBounds(c, s[2]);
        c := c2;
        if n == 4 {
          c2 := Shift6(c, s[3]);
          Shifted(c, s[3]);
          ShiftBounds(c, s[3]);
          c := c2;
        }
      }
    }
  }

  lemma ShiftBounds(q: nat, b: byte)
    requires Continuation(b)
    ensures Shift6(q, b) == 64 * q + b as int - 0x80
  {
  }

  lemma {:induction false} ValidIsText(s: Bytes) returns (cs: seq<nat>)
    requires ValidUtf8(s)
    ensures forall i :: 0 <= i < |cs| ==> Scalar(cs[i])
    ensures Text(cs) == s
    decreases |s|
  {
    hide Rune, ValidUtf8, Scalar;
    if s == [] {
      cs := [];
    } else {
      var c := FirstRune(s);
      RuneNotEmpty(c);
      var more := ValidIsText(s[|Rune(c)|..]);
      cs := [c] + more;
      assert s == Rune(c) + s[|Rune(c)|..];
    }
  }

  lemma RuneNotEmpty(c: nat)
    requires Scalar(c)
    ensures Rune(c) != []
  {
  }

  /** Exactly the encodings of scalar values are valid: shortest forms only, no surrogates, nothing above U+10FFFF. */
  lemma Utf8Iff(s: Bytes)
    ensures ValidUtf8(s) <==> exists cs: seq<nat> :: (forall i :: 0 <= i < |cs| ==> Scalar(cs[i])) && Text(cs) == s
  {
    hide Rune, ValidUtf8, Scalar;
    if ValidUtf8(s) {
      var cs := ValidIsText(s);
    }
    if cs: seq<nat> :| (forall i :: 0 <= i < |cs| ==> Scalar(cs[i])) && Text(cs) == s {
      TextIsValid(cs);
    }
  }
}
