/**
 The Protocol Buffers wire format, as its "Encoding" document defines it: base 128 varints, tags, length-delimited
 records, fixed-width records and groups. The generated codecs call these primitives from the protobuf run time.
 */
module Wire {
  import opened Bytes

  const U32: nat := 0x1_0000_0000
  const U64: nat := 0x1_0000_0000_0000_0000

  type u64 = v: nat | v < U64
  type i32 = v: int | -0x8000_0000 <= v < 0x8000_0000
  /** An IEEE 754 single as its bit pattern. */
  type f32 = b: nat | b < U32

  // ---------------------------------------------------------------- varints

  function EncodeVarint(v: nat): (s: seq<byte>)
    ensures |s| > 0
  {
    if v < 128 then [v] else [v % 128 + 128] + EncodeVarint(v / 128)
  }

  /** Size of a varint by magnitude, as `compute_raw_varint32_size` and `len_varint` compare it with powers of 128. */
  function VarintSize(v: nat): nat {
    if v < 0x80 then 1
    else if v < 0x4000 then 2
    else if v < 0x20_0000 then 3
    else if v < 0x1000_0000 then 4
    else if v < 0x8_0000_0000 then 5
    else if v < 0x400_0000_0000 then 6
    else if v < 0x2_0000_0000_0000 then 7
    else if v < 0x100_0000_0000_0000 then 8
    else if v < 0x8000_0000_0000_0000 then 9
    else 10
  }

  lemma {:induction false} VarintSizeExact(v: nat)
    requires v < U64
    ensures |EncodeVarint(v)| == VarintSize(v)
    decreases v
  {
    if v >= 128 {
      VarintSizeExact(v / 128);
    }
  }

  /** The number that seven bits of each byte make, the least significant group first. */
  function GroupsValue(s: seq<byte>): nat {
    if s == [] then 0 else s[0] % 128 + 128 * GroupsValue(s[1..])
  }

  /**
   Base 128 Varints: the groups of seven bits make the number, every byte but the last has its top bit set, and no group
   is wasted.
   */
  lemma {:induction false} VarintIsBase128(v: nat)
    ensures var s := EncodeVarint(v);
            && GroupsValue(s) == v
            && (forall i :: 0 <= i < |s| - 1 ==> s[i] >= 128)
            && s[|s| - 1] < 128
            && (v > 0 ==> s[|s| - 1] > 0)
    decreases v
  {
    if v < 128 {
      assert [v as byte][1..] == [];
    } else {
      VarintIsBase128(v / 128);
      assert EncodeVarint(v)[1..] == EncodeVarint(v / 128);
    }
  }

  /** A value and the bytes after it. */
  datatype Parsed<+T> = Parsed(value: T, rest: seq<byte>)

  /** At most `budget` groups of seven bits, least significant first. */
  function ReadGroups(s: seq<byte>, budget: nat): (r: Option<Parsed<nat>>)
    ensures r.Some? ==> |r.value.rest| < |s|
    decreases budget
  {
    if budget == 0 || s == [] then None
    else if s[0] < 128 then Some(Parsed(s[0], s[1..]))
    else match ReadGroups(s[1..], budget - 1)
      case None => None
      case Some(p) => Some(Parsed(s[0] - 128 + 128 * p.value, p.rest))
  }

  /** A varint of at most ten bytes, truncated to 64 bits. */
  function ReadVarint64(s: seq<byte>): (r: Option<Parsed<u64>>)
    ensures r.Some? ==> |r.value.rest| < |s|
  {
    match ReadGroups(s, 10)
    case None => None
    case Some(p) => Some(Parsed(p.value % U64, p.rest))
  }

  function ReadVarint32(s: seq<byte>): (r: Option<Parsed<nat>>)
    ensures r.Some? ==> |r.value.rest| < |s| && r.value.value < U32
  {
    match ReadVarint64(s)
    case None => None
    case Some(p) => Some(Parsed(p.value % U32, p.rest))
  }

  lemma {:induction false} ReadGroupsExtends(s: seq<byte>, t: seq<byte>, budget: nat)
    requires ReadGroups(s, budget).Some?
    ensures var p := ReadGroups(s, budget).value;
            ReadGroups(s + t, budget) == Some(Parsed(p.value, p.rest + t))
    decreases budget
  {
    assert (s + t)[1..] == s[1..] + t;
    if s[0] >= 128 {
      ReadGroupsExtends(s[1..], t, budget - 1);
    }
  }

  /** `budget` groups hold any value of `7 * budget` bits. */
  function Capacity(budget: nat): nat {
    if budget == 0 then 1 else 128 * Capacity(budget - 1)
  }

  lemma {:induction false} ReadGroupsEncoded(v: nat, t: seq<byte>, budget: nat)
    requires v < Capacity(budget) && budget > 0
    ensures ReadGroups(EncodeVarint(v) + t, budget) == Some(Parsed(v, t))
    decreases budget
  {
    var s := EncodeVarint(v) + t;
    if v < 128 {
      assert s[1..] == t;
    } else {
      assert Capacity(budget) == 128 * Capacity(budget - 1);
      assert v / 128 < Capacity(budget - 1);
      ReadGroupsEncoded(v / 128, t, budget - 1);
      assert s[1..] == EncodeVarint(v / 128) + t;
      assert v == v % 128 + 128 * (v / 128);
    }
  }

  lemma CapacityTen()
    ensures Capacity(10) >= U64
  {
  }

  lemma ReadVarintEncoded(v: nat, t: seq<byte>)
    requires v < U64
    ensures ReadVarint64(EncodeVarint(v) + t) == Some(Parsed(v, t))
    ensures v < U32 ==> ReadVarint32(EncodeVarint(v) + t) == Some(Parsed(v, t))
  {
    CapacityTen();
    var s := EncodeVarint(v) + t;
    assert ReadGroups(s, 10) == Some(Parsed(v, t)) by { ReadGroupsEncoded(v, t, 10); }
    SmallMod(v, U64);
    if v < U32 { SmallMod(v, U32); }
  }

  lemma SmallMod(v: nat, m: nat)
    requires v < m
    ensures v % m == v
  {
  }

  // ---------------------------------------------------------------- tags

  datatype WireType = WireTypeVarint | WireTypeFixed64 | WireTypeLengthDelimited | WireTypeStartGroup | WireTypeEndGroup | WireTypeFixed32

  function WireTypeCode(w: WireType): nat {
    match w
    case WireTypeVarint => 0
    case WireTypeFixed64 => 1
    case WireTypeLengthDelimited => 2
    case WireTypeStartGroup => 3
    case WireTypeEndGroup => 4
    case WireTypeFixed32 => 5
  }

  function WireTypeOf(code: nat): Option<WireType> {
    match code
    case 0 => Some(WireTypeVarint)
    case 1 => Some(WireTypeFixed64)
    case 2 => Some(WireTypeLengthDelimited)
    case 3 => Some(WireTypeStartGroup)
    case 4 => Some(WireTypeEndGroup)
    case 5 => Some(WireTypeFixed32)
    case _ => None
  }

  /** The six wire types have the codes 0 to 5, and no other code has one. */
  lemma WireTypeCodes(w: WireType, code: nat)
    ensures WireTypeOf(WireTypeCode(w)) == Some(w) && (WireTypeOf(code).Some? <==> code <= 5)
    ensures WireTypeOf(code).Some? ==> WireTypeCode(WireTypeOf(code).value) == code
  {
  }

  datatype Tag = Tag(num: nat, wireType: WireType)

  function EncodeTag(num: nat, w: WireType): seq<byte> {
    EncodeVarint(8 * num + WireTypeCode(w))
  }

  function ReadTag(s: seq<byte>): (r: Option<Parsed<Tag>>)
    ensures r.Some? ==> |r.value.rest| < |s|
  {
    match ReadVarint32(s)
    case None => None
    case Some(p) =>
      match WireTypeOf(p.value % 8)
      case None => None
      case Some(w) => if p.value / 8 == 0 then None else Some(Parsed(Tag(p.value / 8, w), p.rest))
  }

  lemma ReadTagEncoded(num: nat, w: WireType, t: seq<byte>)
    requires 0 < num < 0x2000_0000
    ensures ReadTag(EncodeTag(num, w) + t) == Some(Parsed(Tag(num, w), t))
  {
    var code := WireTypeCode(w);
    assert (8 * num + code) % 8 == code && (8 * num + code) / 8 == num;
    hide EncodeVarint, ReadVarint32;
    ReadVarintEncoded(8 * num + code, t);
  }

  // ---------------------------------------------------------------- records

  /** One field as it lies on the wire. */
  datatype Record =
    | Varint(num: nat, value: u64)
    | Fixed64(num: nat, octets: seq<byte>)
    | Len(num: nat, payload: seq<byte>)
    | Group(num: nat)
    | Fixed32(num: nat, bits: f32)

  function LittleEndian(v: f32): (s: seq<byte>)
    ensures |s| == 4
  {
    [v % 0x100, v / 0x100 % 0x100, v / 0x1_0000 % 0x100, v / 0x100_0000]
  }

  function FromLittleEndian(s: seq<byte>): (v: f32)
    requires |s| == 4
  {
    var b0: int, b1: int, b2: int, b3: int := s[0], s[1], s[2], s[3];
    b0 + 0x100 * b1 + 0x1_0000 * b2 + 0x100_0000 * b3
  }

  lemma LittleEndianRoundTrip(v: f32)
    ensures FromLittleEndian(LittleEndian(v)) == v
  {
    var a := v / 0x100;
    var b := a / 0x100;
    assert v / 0x1_0000 == b && v / 0x100_0000 == b / 0x100;
    assert v == v % 0x100 + 0x100 * a && a == a % 0x100 + 0x100 * b && b == b % 0x100 + 0x100 * (b / 0x100);
  }

  function Take(s: seq<byte>, n: nat): (r: Option<Parsed<seq<byte>>>)
    ensures r.Some? ==> |r.value.rest| <= |s|
  {
    if n <= |s| then Some(Parsed(s[..n], s[n..])) else None
  }

  /** Length prefix and payload. */
  function ReadDelimited(s: seq<byte>): (r: Option<Parsed<seq<byte>>>)
    ensures r.Some? ==> |r.value.rest| < |s| && |r.value.value| < |s|
  {
    match ReadVarint32(s)
    case None => None
    case Some(p) => Take(p.rest, p.value)
  }

  /** Skips a group of field `num` up to its end tag; groups nest. */
  function SkipGroup(num: nat, s: seq<byte>): (r: Option<seq<byte>>)
    ensures r.Some? ==> |r.value| < |s|
    decreases |s|, 1
  {
    match ReadTag(s)
    case None => None
    case Some(p) =>
      if p.value.wireType == WireTypeEndGroup then (if p.value.num == num then Some(p.rest) else None)
      else match ReadPayload(p.value, p.rest)
        case None => None
        case Some(q) => SkipGroup(num, q.rest)
  }

  /** The rest of a record whose tag has been read. */
  function ReadPayload(tag: Tag, s: seq<byte>): (r: Option<Parsed<Record>>)
    ensures r.Some? ==> |r.value.rest| <= |s| && r.value.value.num == tag.num
    decreases |s|, 2
  {
    match tag.wireType
    case WireTypeVarint =>
      (match ReadVarint64(s) case None => None case Some(p) => Some(Parsed(Varint(tag.num, p.value), p.rest)))
    case WireTypeFixed64 =>
      (match Take(s, 8) case None => None case Some(p) => Some(Parsed(Fixed64(tag.num, p.value), p.rest)))
    case WireTypeLengthDelimited =>
      (match ReadDelimited(s) case None => None case Some(p) => Some(Parsed(Len(tag.num, p.value), p.rest)))
    case WireTypeStartGroup =>
      (match SkipGroup(tag.num, s) case None => None case Some(rest) => Some(Parsed(Group(tag.num), rest)))
    case WireTypeEndGroup => None
    case WireTypeFixed32 =>
      (match Take(s, 4) case None => None case Some(p) => Some(Parsed(Fixed32(tag.num, FromLittleEndian(p.value)), p.rest)))
  }

  function ReadRecord(s: seq<byte>): (r: Option<Parsed<Record>>)
    ensures r.Some? ==> |r.value.rest| < |s|
  {
    match ReadTag(s)
    case None => None
    case Some(p) => ReadPayload(p.value, p.rest)
  }

  // What was read stays read when more bytes follow.

  /** A group ends at the end tag of its own number, and at no other. */
  lemma GroupEnds(num: nat, other: nat, t: seq<byte>)
    requires 0 < num < 0x2000_0000 && 0 < other < 0x2000_0000
    ensures SkipGroup(num, EncodeTag(other, WireTypeEndGroup) + t) == if other == num then Some(t) else None
  {
    ReadTagEncoded(other, WireTypeEndGroup, t);
    hide ReadTag, EncodeTag;
  }

  /** There is no field number 0. */
  lemma FieldZeroIsRefused(b: byte, t: seq<byte>)
    requires b < 8
    ensures ReadTag([b] + t) == None
  {
    assert ([b] + t)[1..] == t;
  }

  lemma ReadTagExtends(s: seq<byte>, t: seq<byte>)
    requires ReadTag(s).Some?
    ensures var p := ReadTag(s).value; ReadTag(s + t) == Some(Parsed(p.value, p.rest + t))
  {
    ReadGroupsExtends(s, t, 10);
  }

  lemma TakeExtends(s: seq<byte>, t: seq<byte>, n: nat)
    requires n <= |s|
    ensures Take(s + t, n) == Some(Parsed(s[..n], s[n..] + t))
  {
    assert (s + t)[..n] == s[..n];
    assert (s + t)[n..] == s[n..] + t;
  }

  lemma {:induction false} SkipGroupExtends(num: nat, s: seq<byte>, t: seq<byte>)
    requires SkipGroup(num, s).Some?
    ensures SkipGroup(num, s + t) == Some(SkipGroup(num, s).value + t)
    decreases |s|, 1
  {
    ReadTagExtends(s, t);
    var p := ReadTag(s).value;
    if p.value.wireType != WireTypeEndGroup {
      ReadPayloadExtends(p.value, p.rest, t);
      SkipGroupExtends(num, ReadPayload(p.value, p.rest).value.rest, t);
    }
  }

  lemma ReadPayloadExtends(tag: Tag, s: seq<byte>, t: seq<byte>)
    requires ReadPayload(tag, s).Some?
    ensures var p := ReadPayload(tag, s).value; ReadPayload(tag, s + t) == Some(Parsed(p.value, p.rest + t))
    decreases |s|, 2
  {
    match tag.wireType
    case WireTypeVarint => ReadGroupsExtends(s, t, 10);
    case WireTypeFixed64 => TakeExtends(s, t, 8);
    case WireTypeLengthDelimited =>
      ReadGroupsExtends(s, t, 10);
      var p := ReadVarint32(s).value;
      TakeExtends(p.rest, t, p.value);
    case WireTypeStartGroup => SkipGroupExtends(tag.num, s, t);
    case WireTypeFixed32 => TakeExtends(s, t, 4);
  }

  // ---------------------------------------------------------------- printing one record

  /** The kinds of record the generated writers emit. */
  predicate Emitted(r: Record) { r.Varint? || r.Len? || r.Fixed32? }

  /** Field numbers below 16 have one-byte tags; a payload length must fit the 32-bit prefix. */
  predicate Printable(r: Record) {
    Emitted(r) && 0 < r.num < 16 && (r.Len? ==> |r.payload| < U32)
  }

  /** A length-delimited record whose length prefix is `size`, which the writer takes from a cache. */
  function EncodeLen(num: nat, size: nat, payload: seq<byte>): seq<byte> {
    EncodeTag(num, WireTypeLengthDelimited) + EncodeVarint(size) + payload
  }

  function EncodeRecord(r: Record): seq<byte>
    requires Emitted(r)
  {
    match r
    case Varint(n, v) => EncodeTag(n, WireTypeVarint) + EncodeVarint(v)
    case Len(n, p) => EncodeLen(n, |p|, p)
    case Fixed32(n, b) => EncodeTag(n, WireTypeFixed32) + LittleEndian(b)
  }

  /** A one-byte tag, the length prefix if there is one, and the value. */
  function RecordSize(r: Record): nat
    requires Emitted(r)
  {
    match r
    case Varint(_, v) => 1 + VarintSize(v)
    case Len(_, p) => 1 + VarintSize(|p|) + |p|
    case Fixed32(_, _) => 5
  }

  lemma EncodeRecordSize(r: Record)
    requires Printable(r)
    ensures |EncodeRecord(r)| == RecordSize(r)
  {
    match r
    case Varint(n, v) => VarintSizeExact(v);
    case Len(n, p) => VarintSizeExact(|p|);
    case Fixed32(n, b) =>
  }

  lemma ReadEncodedRecord(r: Record, t: seq<byte>)
    requires Printable(r)
    ensures ReadRecord(EncodeRecord(r) + t) == Some(Parsed(r, t))
  {
    hide ReadVarint32, EncodeVarint, LittleEndian, FromLittleEndian;
    match r
    case Varint(n, v) =>
      assert EncodeRecord(r) + t == EncodeTag(n, WireTypeVarint) + (EncodeVarint(v) + t);
      ReadTagEncoded(n, WireTypeVarint, EncodeVarint(v) + t);
      ReadVarintEncoded(v, t);
    case Len(n, p) =>
      assert EncodeRecord(r) + t == EncodeTag(n, WireTypeLengthDelimited) + (EncodeVarint(|p|) + (p + t));
      ReadTagEncoded(n, WireTypeLengthDelimited, EncodeVarint(|p|) + (p + t));
      ReadVarintEncoded(|p|, p + t);
      TakeExtends(p, t, |p|);
      assert p[..|p|] == p && p[|p|..] + t == t;
    case Fixed32(n, b) =>
      assert EncodeRecord(r) + t == EncodeTag(n, WireTypeFixed32) + (LittleEndian(b) + t);
      ReadTagEncoded(n, WireTypeFixed32, LittleEndian(b) + t);
      TakeExtends(LittleEndian(b), t, 4);
      LittleEndianRoundTrip(b);
      assert LittleEndian(b)[..4] == LittleEndian(b) && LittleEndian(b)[4..] + t == t;
  }

  // ---------------------------------------------------------------- merging

  /** The loop of every generated `merge_from`: read a record, act on it, until the input is used up. */
  function Merge<M>(step: (M, Record) -> Option<M>, m: M, s: seq<byte>): Option<M>
    decreases |s|
  {
    if s == [] then Some(m)
    else match ReadRecord(s)
      case None => None
      case Some(p) =>
        match step(m, p.value)
        case None => None
        case Some(m') => Merge(step, m', p.rest)
  }

  lemma MergeNothing<M>(step: (M, Record) -> Option<M>, m: M)
    ensures Merge(step, m, []) == Some(m)
  {
  }

  lemma MergeTurn<M>(step: (M, Record) -> Option<M>, m: M, s: seq<byte>)
    requires s != []
    ensures Merge(step, m, s) == match ReadTag(s)
                                 case None => None
                                 case Some(t) =>
                                   match ReadPayload(t.value, t.rest)
                                   case None => None
                                   case Some(p) =>
                                     match step(m, p.value)
                                     case None => None
                                     case Some(m') => Merge(step, m', p.rest)
  {
  }

  /** Merging a concatenation is merging its parts in turn, whatever the second part is. */
  lemma {:induction false} MergeConcat<M>(step: (M, Record) -> Option<M>, m: M, a: seq<byte>, b: seq<byte>)
    requires Merge(step, m, a).Some?
    ensures Merge(step, m, a + b) == Merge(step, Merge(step, m, a).value, b)
    decreases |a|
  {
    if a == [] {
      assert a + b == b;
    } else {
      var p := ReadTag(a).value;
      ReadTagExtends(a, b);
      ReadPayloadExtends(p.value, p.rest, b);
      var q := ReadRecord(a).value;
      MergeConcat(step, step(m, q.value).value, q.rest, b);
    }
  }

  /** One more record at the front of what is to be merged. */
  lemma MergeRecord<M>(step: (M, Record) -> Option<M>, m: M, r: Record, s: seq<byte>)
    requires Printable(r)
    ensures Merge(step, m, EncodeRecord(r) + s) == match step(m, r) case None => None case Some(m') => Merge(step, m', s)
  {
    ReadEncodedRecord(r, s);
    hide ReadRecord, EncodeRecord;
  }

  /** One more record at the end of what has been merged. */
  lemma MergeField<M>(step: (M, Record) -> Option<M>, m: M, x: seq<byte>, mx: M, r: Record)
    requires Merge(step, m, x) == Some(mx) && Printable(r)
    ensures Merge(step, m, x + EncodeRecord(r)) == step(mx, r)
  {
    MergeConcat(step, m, x, EncodeRecord(r));
    assert EncodeRecord(r) + [] == EncodeRecord(r);
    ReadEncodedRecord(r, []);
  }

  /** A field that is written only when `c` holds. */
  function Opt(c: bool, r: Record): seq<byte>
    requires Emitted(r)
  {
    if c then EncodeRecord(r) else []
  }

  lemma OptSize(c: bool, r: Record)
    requires Emitted(r) && 0 < r.num < 16 && (r.Len? && c ==> |r.payload| < U32)
    ensures |Opt(c, r)| == if c then RecordSize(r) else 0
  {
    if c { EncodeRecordSize(r); }
  }

  lemma OptLenSize(c: bool, num: nat, payload: seq<byte>)
    ensures c ==> |payload| <= |Opt(c, Len(num, payload))|
  {
  }

  lemma MergeOpt<M>(step: (M, Record) -> Option<M>, m: M, x: seq<byte>, mx: M, c: bool, r: Record, my: M)
    requires Merge(step, m, x) == Some(mx) && Emitted(r)
    requires c ==> Printable(r) && step(mx, r) == Some(my)
    requires !c ==> mx == my
    ensures Merge(step, m, x + Opt(c, r)) == Some(my)
  {
    if c {
      MergeField(step, m, x, mx, r);
    } else {
      assert x + [] == x;
    }
  }

  // ---------------------------------------------------------------- scalar values

  /** `x != 0.` is false for both zeros. */
  predicate IsZero(x: f32) { x == 0 || x == 0x8000_0000 }

  /** Zero whatever the sign bit. */
  lemma ZeroIgnoresSign(x: f32)
    ensures IsZero(x) <==> x % 0x8000_0000 == 0
    ensures IsZero(x) <==> x in {0x0000_0000, 0x8000_0000}
  {
  }

  function CanonFloat(x: f32): f32 { if IsZero(x) then 0 else x }

  /** A negative `int32` is sign-extended to ten bytes. */
  function Int32Wire(v: i32): u64
  {
    if v >= 0 then v else U64 + v
  }

  function Int32OfWire(w: u64): i32 {
    var low := w % U32;
    if low < 0x8000_0000 then low else low - U32
  }

  lemma Int32RoundTrip(v: i32)
    ensures Int32OfWire(Int32Wire(v)) == v
  {
  }

  /** On the wire a count is itself modulo 2^64, so that a negative one takes ten bytes. */
  lemma Int32IsSignExtended(v: i32)
    ensures (Int32Wire(v) - v) % U64 == 0
    ensures v < 0 ==> |EncodeVarint(Int32Wire(v))| == 10
    ensures v >= 0 ==> |EncodeVarint(Int32Wire(v))| <= 5
    ensures forall w: u64 :: (Int32OfWire(w) - w) % U32 == 0
  {
    VarintSizeExact(Int32Wire(v));
  }

  function BoolWire(b: bool): u64 { if b then 1 else 0 }

  function BoolOfWire(w: u64): bool { w % U32 != 0 }
}
