/**
  The Protocol Buffers wire format: base 128 varints, tags, length-delimited
  values, and a message as its list of fields.  The reader is the reference the
  partial decoders are compared with; the writer covers what the envelopes use.
 */
module Protowire {
  import opened Wrappers

  type Byte = x: int | 0 <= x < 0x100

  type Bytes = seq<Byte>

  const U64: nat := 0x1_0000_0000_0000_0000
  const MAX_FIELD_NUMBER: nat := 0x7FFF_FFFF
  const RECURSION_LIMIT := 10000

  /** Why bytes cannot be read. */
  datatype Code = Truncated | Overflow | BadNumber | BadEndGroup | ReservedType | TooDeep

  /** A value read off the front of a byte sequence, and how many bytes it took. */
  datatype Parsed<T> = Good(value: T, n: nat) | Bad(code: Code)

  // ----- varints -----

  /** Values below this fit in the bytes from the k-th of a varint on. */
  function Room(k: nat): (r: nat)
    requires k <= 9
    ensures r >= 2
    decreases 9 - k
  {
    if k == 9 then 2 else 0x80 * Room(k + 1)
  }

  lemma RoomIsU64()
    ensures Room(0) == U64
  {
    assert Room(9) == 2 && Room(8) == 0x100 && Room(7) == 0x8000 && Room(6) == 0x40_0000;
    assert Room(5) == 0x2000_0000 && Room(4) == 0x10_0000_0000 && Room(3) == 0x800_0000_0000;
    assert Room(2) == 0x4_0000_0000_0000 && Room(1) == 0x200_0000_0000_0000;
  }

  /** Read a varint from its k-th byte on; the tenth byte has room for one bit only. */
  function VarintFrom(b: Bytes, k: nat): (r: Parsed<nat>)
    requires k <= 9
    ensures r.Good? ==> 1 <= r.n <= |b| && r.value < Room(k)
    decreases 9 - k
  {
    if b == [] then Bad(Truncated)
    else if k == 9 then if b[0] < 2 then Good(b[0], 1) else Bad(Overflow)
    else if b[0] < 0x80 then Good(b[0], 1)
    else match VarintFrom(b[1..], k + 1)
         case Good(v, n) => Good(b[0] - 0x80 + 0x80 * v, n + 1)
         case Bad(code) => Bad(code)
  }

  function ConsumeVarint(b: Bytes): (r: Parsed<nat>)
    ensures r.Good? ==> 1 <= r.n <= |b| && r.value < U64
  {
    RoomIsU64();
    VarintFrom(b, 0)
  }

  function Varint(v: nat): (b: Bytes)
    ensures |b| >= 1
  {
    if v < 0x80 then [v] else [v % 0x80 + 0x80] + Varint(v / 0x80)
  }

  lemma {:induction false} VarintFromInverts(v: nat, k: nat, rest: Bytes)
    requires k <= 9 && v < Room(k)
    ensures VarintFrom(Varint(v) + rest, k) == Good(v, |Varint(v)|)
    decreases 9 - k
  {
    var b := Varint(v) + rest;
    if v >= 0x80 {
      assert k < 9;
      VarintFromInverts(v / 0x80, k + 1, rest);
      assert b[1..] == Varint(v / 0x80) + rest;
    }
  }

  /** Every 64-bit value survives the trip, whatever follows it. */
  lemma VarintInverts(v: nat, rest: Bytes)
    requires v < U64
    ensures ConsumeVarint(Varint(v) + rest) == Good(v, |Varint(v)|)
  {
    RoomIsU64();
    VarintFromInverts(v, 0, rest);
  }

  /** What is left of v after i groups of seven bits. */
  function Shifted(v: nat, i: nat): nat {
    if i == 0 then v else Shifted(v / 0x80, i - 1)
  }

  /** Groups of seven bits, the least significant first, each but the last with its high bit set; and none too many. */
  lemma {:induction false} VarintBytes(v: nat, i: nat)
    requires i < |Varint(v)|
    ensures Varint(v)[i] == Shifted(v, i) % 0x80 + if i + 1 < |Varint(v)| then 0x80 else 0
    ensures i + 1 < |Varint(v)| <==> Shifted(v, i) >= 0x80
    decreases i
  {
    if i > 0 {
      VarintBytes(v / 0x80, i - 1);
    }
  }

  lemma {:induction false} VarintFromStable(b: Bytes, k: nat, more: Bytes)
    requires k <= 9 && VarintFrom(b, k).Good?
    ensures VarintFrom(b + more, k) == VarintFrom(b, k)
    decreases 9 - k
  {
    if k < 9 && b[0] >= 0x80 {
      VarintFromStable(b[1..], k + 1, more);
      assert (b + more)[1..] == b[1..] + more;
    }
  }

  // ----- tags and values -----

  datatype WireType = VarintType | Fixed64Type | BytesType | StartGroupType | EndGroupType | Fixed32Type | Reserved

  function TypeOf(bits: nat): WireType {
    match bits
    case 0 => VarintType
    case 1 => Fixed64Type
    case 2 => BytesType
    case 3 => StartGroupType
    case 4 => EndGroupType
    case 5 => Fixed32Type
    case _ => Reserved
  }

  datatype Tag = Tag(num: nat, typ: WireType)

  /** A field number and a wire type; the number must be positive and fit an int32. */
  function ConsumeTag(b: Bytes): (r: Parsed<Tag>)
    ensures r.Good? ==> 1 <= r.n <= |b| && 1 <= r.value.num <= MAX_FIELD_NUMBER
  {
    match ConsumeVarint(b)
    case Bad(code) => Bad(code)
    case Good(v, n) =>
      if v / 8 < 1 || v / 8 > MAX_FIELD_NUMBER then Bad(BadNumber) else Good(Tag(v / 8, TypeOf(v % 8)), n)
  }

  function ConsumeBytes(b: Bytes): (r: Parsed<Bytes>)
    ensures r.Good? ==> 1 <= r.n <= |b|
  {
    match ConsumeVarint(b)
    case Bad(code) => Bad(code)
    case Good(m, n) => if m > |b| - n then Bad(Truncated) else Good(b[n..n + m], n + m)
  }

  /** What a field holds; fixed-width values and groups are kept as raw bytes. */
  datatype Payload = Num(v: nat) | Data(data: Bytes) | Raw(raw: Bytes)

  function Further(k: nat, r: Parsed<nat>): Parsed<nat> {
    match r
    case Good(v, n) => Good(k + v, k + n)
    case Bad(code) => Bad(code)
  }

  /** Read a value of the given type; a group may nest as deep as `depth`. */
  function ConsumeValue(num: nat, typ: WireType, b: Bytes, depth: int): (r: Parsed<Payload>)
    ensures r.Good? ==> 1 <= r.n <= |b|
    ensures r.Good? ==> (typ.VarintType? <==> r.value.Num?) && (typ.BytesType? <==> r.value.Data?)
    decreases |b|, 2
  {
    match typ
    case VarintType => (match ConsumeVarint(b) case Good(v, n) => Good(Num(v), n) case Bad(code) => Bad(code))
    case BytesType => (match ConsumeBytes(b) case Good(d, n) => Good(Data(d), n) case Bad(code) => Bad(code))
    case Fixed32Type => if |b| < 4 then Bad(Truncated) else Good(Raw(b[..4]), 4)
    case Fixed64Type => if |b| < 8 then Bad(Truncated) else Good(Raw(b[..8]), 8)
    case StartGroupType =>
      if depth < 0 then Bad(TooDeep)
      else (match SkipGroup(num, b, depth) case Good(_, n) => Good(Raw(b[..n]), n) case Bad(code) => Bad(code))
    case EndGroupType => Bad(BadEndGroup)
    case Reserved => Bad(ReservedType)
  }

  datatype Item = EndOf(num: nat) | Inner

  /** One step inside a group: its end tag, or a whole field. */
  function ConsumeItem(b: Bytes, depth: int): (r: Parsed<Item>)
    ensures r.Good? ==> 1 <= r.n <= |b|
    decreases |b|, 0
  {
    match ConsumeTag(b)
    case Bad(code) => Bad(code)
    case Good(tag, n) =>
      if tag.typ.EndGroupType? then Good(EndOf(tag.num), n)
      else match ConsumeValue(tag.num, tag.typ, b[n..], depth)
           case Bad(code) => Bad(code)
           case Good(_, m) => Good(Inner, n + m)
  }

  /** Pass over fields up to the end tag of group `num`. */
  function SkipGroup(num: nat, b: Bytes, depth: int): (r: Parsed<nat>)
    ensures r.Good? ==> 1 <= r.n <= |b| && r.value == r.n
    decreases |b|, 1
  {
    match ConsumeItem(b, depth - 1)
    case Bad(code) => Bad(code)
    case Good(EndOf(end), n) => if end == num then Good(n, n) else Bad(BadEndGroup)
    case Good(Inner, n) => Further(n, SkipGroup(num, b[n..], depth))
  }

  lemma VarintStable(b: Bytes, more: Bytes)
    requires ConsumeVarint(b).Good?
    ensures ConsumeVarint(b + more) == ConsumeVarint(b)
  {
    VarintFromStable(b, 0, more);
  }

  lemma BytesStable(b: Bytes, more: Bytes)
    requires ConsumeBytes(b).Good?
    ensures ConsumeBytes(b + more) == ConsumeBytes(b)
  {
    VarintStable(b, more);
    var r := ConsumeVarint(b);
    assert (b + more)[r.n..r.n + r.value] == b[r.n..r.n + r.value];
  }

  lemma DropAppend(b: Bytes, more: Bytes, n: nat)
    requires n <= |b|
    ensures (b + more)[n..] == b[n..] + more
  {}

  lemma TagStable(b: Bytes, more: Bytes)
    requires ConsumeTag(b).Good?
    ensures ConsumeTag(b + more) == ConsumeTag(b)
  {
    VarintStable(b, more);
  }

  lemma {:induction false} ValueStable(num: nat, typ: WireType, b: Bytes, depth: int, more: Bytes)
    requires ConsumeValue(num, typ, b, depth).Good?
    ensures ConsumeValue(num, typ, b + more, depth) == ConsumeValue(num, typ, b, depth)
    decreases |b|, 2
  {
    match typ
    case VarintType => VarintStable(b, more);
    case BytesType => BytesStable(b, more);
    case StartGroupType =>
      GroupStable(num, b, depth, more);
      var n := SkipGroup(num, b, depth).n;
      assert (b + more)[..n] == b[..n];
    case Fixed32Type => assert (b + more)[..4] == b[..4];
    case Fixed64Type => assert (b + more)[..8] == b[..8];
    case EndGroupType =>
    case Reserved =>
  }

  lemma {:induction false} ItemStable(b: Bytes, depth: int, more: Bytes)
    requires ConsumeItem(b, depth).Good?
    ensures ConsumeItem(b + more, depth) == ConsumeItem(b, depth)
    decreases |b|, 0
  {
    TagStable(b, more);
    var tag, n := ConsumeTag(b).value, ConsumeTag(b).n;
    if !tag.typ.EndGroupType? {
      DropAppend(b, more, n);
      ValueStable(tag.num, tag.typ, b[n..], depth, more);
    }
  }

  lemma {:induction false} GroupStable(num: nat, b: Bytes, depth: int, more: Bytes)
    requires SkipGroup(num, b, depth).Good?
    ensures SkipGroup(num, b + more, depth) == SkipGroup(num, b, depth)
    decreases |b|, 1
  {
    ItemStable(b, depth - 1, more);
    var item := ConsumeItem(b, depth - 1);
    if item.value.Inner? {
      DropAppend(b, more, item.n);
      GroupStable(num, b[item.n..], depth, more);
    }
  }

  // ----- messages -----

  datatype Field = Field(num: nat, payload: Payload)

  /** The fields of the longest well-formed prefix, and what is wrong after it, if anything. */
  datatype Listing = Listing(fields: seq<Field>, end: Option<Code>) {
    predicate Ok() {
      end.None?
    }

    function After(done: seq<Field>): Listing {
      Listing(done + fields, end)
    }
  }

  function ConsumeField(b: Bytes): (r: Parsed<Field>)
    ensures r.Good? ==> 1 < r.n <= |b| && 1 <= r.value.num <= MAX_FIELD_NUMBER
  {
    match ConsumeTag(b)
    case Bad(code) => Bad(code)
    case Good(tag, n) =>
      match ConsumeValue(tag.num, tag.typ, b[n..], RECURSION_LIMIT)
      case Bad(code) => Bad(code)
      case Good(payload, m) => Good(Field(tag.num, payload), n + m)
  }

  function Fields(b: Bytes): Listing {
    if b == [] then Listing([], None)
    else match ConsumeField(b)
         case Bad(code) => Listing([], Some(code))
         case Good(f, n) => Fields(b[n..]).After([f])
  }

  lemma FieldsStep(b: Bytes, f: Field, n: nat, tail: Bytes)
    requires ConsumeField(b) == Good(f, n) && tail == b[n..]
    ensures Fields(b) == Fields(tail).After([f])
  {}

  lemma FieldStable(b: Bytes, more: Bytes)
    requires ConsumeField(b).Good?
    ensures ConsumeField(b + more) == ConsumeField(b)
  {
    TagStable(b, more);
    var tag, n := ConsumeTag(b).value, ConsumeTag(b).n;
    DropAppend(b, more, n);
    ValueStable(tag.num, tag.typ, b[n..], RECURSION_LIMIT, more);
  }

  lemma AfterTwice(l: Listing, a: seq<Field>, b: seq<Field>)
    ensures l.After(b).After(a) == l.After(a + b)
  {
    assert a + (b + l.fields) == a + b + l.fields;
  }

  /** Parsing a ++ b is parsing a and then b, when a is well formed. */
  lemma {:induction false} FieldsConcat(a: Bytes, b: Bytes)
    requires Fields(a).Ok()
    ensures Fields(a + b) == Fields(b).After(Fields(a).fields)
    decreases |a|
  {
    if a == [] {
      assert a + b == b && [] + Fields(b).fields == Fields(b).fields;
    } else {
      var f, n := ConsumeField(a).value, ConsumeField(a).n;
      var tail := a[n..];
      FieldsStep(a, f, n, tail);
      FieldStable(a, b);
      DropAppend(a, b, n);
      FieldsStep(a + b, f, n, tail + b);
      FieldsConcat(tail, b);
      AfterTwice(Fields(b), [f], Fields(tail).fields);
    }
  }

  // ----- writing -----

  function TagBytes(num: nat, typ: nat): Bytes {
    Varint(num * 8 + typ)
  }

  /** A field number that can be written, and a value that fits. */
  predicate Writable(f: Field) {
    && 1 <= f.num <= MAX_FIELD_NUMBER
    && match f.payload
       case Num(v) => v < U64
       case Data(d) => |d| < U64
       case Raw(_) => false
  }

  /** Varint and length-delimited fields; no envelope writes any other kind. */
  function WriteField(f: Field): Bytes {
    match f.payload
    case Num(v) => TagBytes(f.num, 0) + Varint(v)
    case Data(d) => TagBytes(f.num, 2) + (Varint(|d|) + d)
    case Raw(_) => []
  }

  function Write(fs: seq<Field>): Bytes {
    if fs == [] then [] else WriteField(fs[0]) + Write(fs[1..])
  }

  lemma TagInverts(num: nat, typ: nat, rest: Bytes)
    requires 1 <= num <= MAX_FIELD_NUMBER && typ < 8
    ensures ConsumeTag(TagBytes(num, typ) + rest) == Good(Tag(num, TypeOf(typ)), |TagBytes(num, typ)|)
  {
    VarintInverts(num * 8 + typ, rest);
  }

  lemma BytesInverts(d: Bytes, rest: Bytes)
    requires |d| < U64
    ensures ConsumeBytes(Varint(|d|) + d + rest) == Good(d, |Varint(|d|)| + |d|)
  {
    VarintInverts(|d|, d + rest);
    assert Varint(|d|) + d + rest == Varint(|d|) + (d + rest);
  }

  lemma Halves(tag: Bytes, value: Bytes, rest: Bytes)
    ensures tag + value + rest == tag + (value + rest) && (tag + value + rest)[|tag|..] == value + rest
  {}

  lemma FieldInverts(f: Field, rest: Bytes)
    requires Writable(f)
    ensures ConsumeField(WriteField(f) + rest) == Good(f, |WriteField(f)|)
  {
    match f.payload
    case Num(v) =>
      var tag, value := TagBytes(f.num, 0), Varint(v);
      Halves(tag, value, rest);
      TagInverts(f.num, 0, value + rest);
      VarintInverts(v, rest);
    case Data(d) =>
      var tag, value := TagBytes(f.num, 2), Varint(|d|) + d;
      Halves(tag, value, rest);
      TagInverts(f.num, 2, value + rest);
      BytesInverts(d, rest);
  }

  /** What is written is read back, field for field. */
  lemma {:induction false} WriteInverts(fs: seq<Field>)
    requires forall f <- fs :: Writable(f)
    ensures Fields(Write(fs)) == Listing(fs, None)
    decreases |fs|
  {
    if fs != [] {
      FieldInverts(fs[0], Write(fs[1..]));
      WriteInverts(fs[1..]);
      var b := Write(fs);
      assert b[|WriteField(fs[0])|..] == Write(fs[1..]);
      assert [fs[0]] + fs[1..] == fs;
    }
  }

  lemma {:induction false} WriteSnoc(fs: seq<Field>, f: Field)
    ensures Write(fs + [f]) == Write(fs) + WriteField(f)
  {
    if fs == [] {
      assert fs + [f] == [f] && WriteField(f) + [] == WriteField(f);
    } else {
      assert (fs + [f])[0] == fs[0] && (fs + [f])[1..] == fs[1..] + [f];
      WriteSnoc(fs[1..], f);
      assert WriteField(fs[0]) + (Write(fs[1..]) + WriteField(f)) == WriteField(fs[0]) + Write(fs[1..]) + WriteField(f);
    }
  }
}
