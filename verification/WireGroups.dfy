/** Nested groups and fixed-width values: how much of the input each of them takes, and how deep groups may nest. */
module WireGroups {
  import opened Protowire

  datatype Scalar = Plain(v: nat) | Sized(data: Bytes) | Four(raw: Bytes) | Eight(raw: Bytes)

  /** The fields inside a group, written one after the other. */
  datatype Nest = Nothing | One(num: nat, value: Scalar, next: Nest) | Group(num: nat, inner: Nest, next: Nest)

  predicate InRange(num: nat) {
    1 <= num <= 0x7FFF_FFFF
  }

  predicate ScalarProper(x: Scalar) {
    match x
    case Plain(v) => v < U64
    case Sized(d) => |d| < U64
    case Four(raw) => |raw| == 4
    case Eight(raw) => |raw| == 8
  }

  predicate Proper(n: Nest) {
    match n
    case Nothing => true
    case One(num, value, next) => InRange(num) && ScalarProper(value) && Proper(next)
    case Group(num, inner, next) => InRange(num) && Proper(inner) && Proper(next)
  }

  function TypeBits(x: Scalar): nat {
    match x
    case Plain(_) => 0
    case Eight(_) => 1
    case Sized(_) => 2
    case Four(_) => 5
  }

  function ValueBytes(x: Scalar): Bytes {
    match x
    case Plain(v) => Varint(v)
    case Sized(d) => Varint(|d|) + d
    case Four(raw) => raw
    case Eight(raw) => raw
  }

  /** A tag, then the value; a group is its fields between a start tag and an end tag of its number. */
  function NestBytes(n: Nest): Bytes {
    match n
    case Nothing => []
    case One(num, value, next) => Varint(8 * num + TypeBits(value)) + ValueBytes(value) + NestBytes(next)
    case Group(num, inner, next) => Varint(8 * num + 3) + NestBytes(inner) + Varint(8 * num + 4) + NestBytes(next)
  }

  /** How many groups enclose the innermost field. */
  function Depth(n: Nest): nat {
    match n
    case Nothing => 0
    case One(_, _, next) => Depth(next)
    case Group(_, inner, next) => var (a, b) := (1 + Depth(inner), Depth(next)); if a < b then b else a
  }

  function ReadAs(x: Scalar): Payload {
    match x
    case Plain(v) => Num(v)
    case Sized(d) => Data(d)
    case Four(raw) => Raw(raw)
    case Eight(raw) => Raw(raw)
  }

  lemma Prefix(a: Bytes, b: Bytes)
    ensures (a + b)[..|a|] == a && (a + b)[|a|..] == b
  {}

  lemma Split3(a: Bytes, b: Bytes, c: Bytes)
    ensures a + b + c == a + (b + c)
  {}

  lemma SameTag(num: nat, bits: nat)
    ensures TagBytes(num, bits) == Varint(8 * num + bits)
  {
    assert num * 8 + bits == 8 * num + bits;
  }

  lemma ReadsTag(num: nat, bits: nat, rest: Bytes)
    requires InRange(num) && bits < 8
    ensures var tag := Varint(8 * num + bits);
            ConsumeTag(tag + rest) == Good(Tag(num, TypeOf(bits)), |tag|) && (tag + rest)[|tag|..] == rest
  {
    var tag := TagBytes(num, bits);
    SameTag(num, bits);
    assert ConsumeTag(tag + rest) == Good(Tag(num, TypeOf(bits)), |tag|) by {
      TagInverts(num, bits, rest);
    }
    Prefix(tag, rest);
  }

  lemma ReadsValue(num: nat, x: Scalar, rest: Bytes, depth: int)
    requires ScalarProper(x)
    ensures ConsumeValue(num, TypeOf(TypeBits(x)), ValueBytes(x) + rest, depth) == Good(ReadAs(x), |ValueBytes(x)|)
  {
    match x
    case Plain(v) => VarintInverts(v, rest);
    case Sized(d) => BytesInverts(d, rest);
    case Four(raw) => Prefix(raw, rest);
    case Eight(raw) => Prefix(raw, rest);
  }

  lemma FieldOf(b: Bytes, tag: Tag, n: nat, tail: Bytes)
    requires ConsumeTag(b) == Good(tag, n) && n <= |b| && tail == b[n..]
    ensures ConsumeField(b) == match ConsumeValue(tag.num, tag.typ, tail, RECURSION_LIMIT)
                               case Good(payload, m) => Good(Field(tag.num, payload), n + m)
                               case Bad(code) => Bad(code)
  {}

  /** A scalar field is its tag and exactly its value: four bytes for wire type 5, eight for type 1. */
  lemma ScalarsExact(num: nat, x: Scalar, rest: Bytes)
    requires InRange(num) && ScalarProper(x)
    ensures var tag, value := Varint(8 * num + TypeBits(x)), ValueBytes(x);
            ConsumeField(tag + value + rest) == Good(Field(num, ReadAs(x)), |tag| + |value|)
  {
    Split3(Varint(8 * num + TypeBits(x)), ValueBytes(x), rest);
    ReadsTag(num, TypeBits(x), ValueBytes(x) + rest);
    ReadsValue(num, x, rest, RECURSION_LIMIT);
    FieldOf(Varint(8 * num + TypeBits(x)) + (ValueBytes(x) + rest), Tag(num, TypeOf(TypeBits(x))),
            |Varint(8 * num + TypeBits(x))|, ValueBytes(x) + rest);
  }

  // ----- one field inside a group -----

  lemma ItemOf(b: Bytes, tag: Tag, n: nat, tail: Bytes, depth: int)
    requires ConsumeTag(b) == Good(tag, n) && n <= |b| && tail == b[n..] && !tag.typ.EndGroupType?
    ensures ConsumeItem(b, depth) == match ConsumeValue(tag.num, tag.typ, tail, depth)
                                     case Good(_, m) => Good(Inner, n + m)
                                     case Bad(code) => Bad(code)
  {}

  lemma EndItem(num: nat, rest: Bytes, depth: int)
    requires InRange(num)
    ensures ConsumeItem(Varint(8 * num + 4) + rest, depth) == Good(EndOf(num), |Varint(8 * num + 4)|)
  {
    ReadsTag(num, 4, rest);
  }

  lemma ScalarItem(num: nat, x: Scalar, rest: Bytes, depth: int)
    requires InRange(num) && ScalarProper(x)
    ensures var field := Varint(8 * num + TypeBits(x)) + ValueBytes(x);
            ConsumeItem(field + rest, depth) == Good(Inner, |field|)
  {
    var tag, value := Varint(8 * num + TypeBits(x)), ValueBytes(x);
    Split3(tag, value, rest);
    ReadsTag(num, TypeBits(x), value + rest);
    ReadsValue(num, x, rest, depth);
    ItemOf(tag + (value + rest), Tag(num, TypeOf(TypeBits(x))), |tag|, value + rest, depth);
  }

  lemma GroupValue(num: nat, b: Bytes, depth: int, size: nat)
    requires depth >= 0 ==> SkipGroup(num, b, depth) in {Good(size, size), Bad(TooDeep)}
    ensures ConsumeValue(num, StartGroupType, b, depth).Good?
       <==> depth >= 0 && SkipGroup(num, b, depth) == Good(size, size)
    ensures match ConsumeValue(num, StartGroupType, b, depth)
            case Good(_, n) => n == size
            case Bad(code) => code == TooDeep
  {}

  /** A group as a field: `fits` says that what is nested in it is not too deep. */
  lemma GroupItem(num: nat, body: Bytes, rest: Bytes, depth: int, fits: bool)
    requires InRange(num) && (fits ==> depth >= 0)
    requires depth >= 0 ==> SkipGroup(num, body + rest, depth) == if fits then Good(|body|, |body|) else Bad(TooDeep)
    ensures var start := Varint(8 * num + 3);
            ConsumeItem(start + body + rest, depth) == if fits then Good(Inner, |start| + |body|) else Bad(TooDeep)
  {
    var start := Varint(8 * num + 3);
    Split3(start, body, rest);
    ReadsTag(num, 3, body + rest);
    GroupValue(num, body + rest, depth, |body|);
    ItemOf(start + (body + rest), Tag(num, StartGroupType), |start|, body + rest, depth);
  }

  // ----- a whole group -----

  lemma Joined(field: Bytes, tail: Bytes, rest: Bytes)
    ensures field + tail + rest == field + (tail + rest) && (field + tail + rest)[|field|..] == tail + rest
  {}

  /** One field of a group, if it is not too deep, and then the rest of the group. */
  lemma SkipsOn(num: nat, field: Bytes, tail: Bytes, rest: Bytes, depth: int, fits: bool, more: bool)
    requires ConsumeItem(field + (tail + rest), depth - 1) == if fits then Good(Inner, |field|) else Bad(TooDeep)
    requires SkipGroup(num, tail + rest, depth) == if more then Good(|tail|, |tail|) else Bad(TooDeep)
    ensures SkipGroup(num, field + tail + rest, depth)
         == if fits && more then Good(|field + tail|, |field + tail|) else Bad(TooDeep)
  {
    Joined(field, tail, rest);
  }

  /** The fields of a group and its end tag. */
  function GroupBytes(num: nat, n: Nest): Bytes {
    NestBytes(n) + Varint(8 * num + 4)
  }

  lemma GroupBytesOfOne(num: nat, k: nat, value: Scalar, next: Nest)
    ensures GroupBytes(num, One(k, value, next))
         == (Varint(8 * k + TypeBits(value)) + ValueBytes(value)) + GroupBytes(num, next)
  {}

  lemma GroupBytesOfGroup(num: nat, k: nat, inner: Nest, next: Nest)
    ensures GroupBytes(num, Group(k, inner, next)) == (Varint(8 * k + 3) + GroupBytes(k, inner)) + GroupBytes(num, next)
  {}

  /** Passing over the body of a group ends right after its own end tag, unless groups nest too deep in it. */
  predicate Skips(num: nat, n: Nest, rest: Bytes, depth: int) {
    var group := GroupBytes(num, n);
    SkipGroup(num, group + rest, depth) == if Depth(n) <= depth then Good(|group|, |group|) else Bad(TooDeep)
  }

  lemma NothingSkips(num: nat, rest: Bytes, depth: int)
    requires InRange(num) && depth >= 0
    ensures Skips(num, Nothing, rest, depth)
  {
    EndItem(num, rest, depth - 1);
    assert GroupBytes(num, Nothing) == Varint(8 * num + 4);
  }

  lemma ThenSkips(num: nat, field: Bytes, n: Nest, next: Nest, rest: Bytes, depth: int, fits: bool)
    requires ConsumeItem(field + (GroupBytes(num, next) + rest), depth - 1)
          == if fits then Good(Inner, |field|) else Bad(TooDeep)
    requires Skips(num, next, rest, depth)
    requires GroupBytes(num, n) == field + GroupBytes(num, next)
    requires Depth(n) <= depth <==> fits && Depth(next) <= depth
    ensures Skips(num, n, rest, depth)
  {
    SkipsOn(num, field, GroupBytes(num, next), rest, depth, fits, Depth(next) <= depth);
  }

  lemma OneSkips(num: nat, k: nat, value: Scalar, next: Nest, rest: Bytes, depth: int)
    requires InRange(k) && ScalarProper(value) && Skips(num, next, rest, depth)
    ensures Skips(num, One(k, value, next), rest, depth)
  {
    var field := Varint(8 * k + TypeBits(value)) + ValueBytes(value);
    ScalarItem(k, value, GroupBytes(num, next) + rest, depth - 1);
    GroupBytesOfOne(num, k, value, next);
    ThenSkips(num, field, One(k, value, next), next, rest, depth, true);
  }

  lemma NestedItem(k: nat, inner: Nest, rest: Bytes, depth: int)
    requires InRange(k) && depth >= 0 && (depth > 0 ==> Skips(k, inner, rest, depth - 1))
    ensures var field := Varint(8 * k + 3) + GroupBytes(k, inner);
            ConsumeItem(field + rest, depth - 1)
            == if 1 + Depth(inner) <= depth then Good(Inner, |field|) else Bad(TooDeep)
  {
    GroupItem(k, GroupBytes(k, inner), rest, depth - 1, 1 + Depth(inner) <= depth);
  }

  lemma GroupSkips(num: nat, k: nat, inner: Nest, next: Nest, rest: Bytes, depth: int)
    requires InRange(k) && depth >= 0 && Skips(num, next, rest, depth)
    requires depth > 0 ==> Skips(k, inner, GroupBytes(num, next) + rest, depth - 1)
    ensures Skips(num, Group(k, inner, next), rest, depth)
  {
    var field := Varint(8 * k + 3) + GroupBytes(k, inner);
    NestedItem(k, inner, GroupBytes(num, next) + rest, depth);
    GroupBytesOfGroup(num, k, inner, next);
    ThenSkips(num, field, Group(k, inner, next), next, rest, depth, 1 + Depth(inner) <= depth);
  }

  lemma {:induction false} NestSkips(num: nat, n: Nest, rest: Bytes, depth: int)
    requires InRange(num) && Proper(n) && depth >= 0
    ensures Skips(num, n, rest, depth)
    decreases n
  {
    match n
    case Nothing => NothingSkips(num, rest, depth);
    case One(k, value, next) =>
      NestSkips(num, next, rest, depth);
      OneSkips(num, k, value, next, rest, depth);
    case Group(k, inner, next) =>
      NestSkips(num, next, rest, depth);
      if depth > 0 {
        NestSkips(k, inner, GroupBytes(num, next) + rest, depth - 1);
      }
      GroupSkips(num, k, inner, next, rest, depth);
  }

  /**
    A group field is everything up to its own end tag, whatever groups are nested
    in it, if and only if none of them is enclosed in more than 10000 others.
   */
  lemma GroupsExact(num: nat, n: Nest, rest: Bytes)
    requires InRange(num) && Proper(n)
    ensures var start, group := Varint(8 * num + 3), GroupBytes(num, n);
            ConsumeField(start + group + rest)
            == if Depth(n) <= 10000 then Good(Field(num, Raw(group)), |start| + |group|) else Bad(TooDeep)
  {
    var start, group := Varint(8 * num + 3), GroupBytes(num, n);
    Split3(start, group, rest);
    ReadsTag(num, 3, group + rest);
    NestSkips(num, n, rest, RECURSION_LIMIT);
    Prefix(group, rest);
    FieldOf(start + (group + rest), Tag(num, StartGroupType), |start|, group + rest);
  }
}
