/** The hand-written Protocol Buffers reader of internal/api/iqiyi.go against the writer of
    internal/api/export.go (Protocol Buffers Encoding, sections "Base 128 Varints" and "Message Structure"). */
module Wire {
  import opened Bits
  import opened Collecting
  import opened Decimal

  type Byte = b: int | 0 <= b < 256

  const TWO64 := 0x1_0000_0000_0000_0000

  type Word = x: int | 0 <= x < TWO64

  const MAX_LENGTH := 0x8000_0000_0000_0000  // Go slices are shorter than this

  // ----- varints -----

  datatype VarintResult = Decoded(value: nat, next: nat) | Overflows | Truncated

  function EncodeVarint(v: nat): (s: seq<Byte>)
    ensures s != []
  {
    if v < 128 then [v] else [v % 128 + 128] + EncodeVarint(v / 128)
  }

  /** Seven low bits below the groups that follow. */
  ghost function WithLow(rest: VarintResult, low: nat): VarintResult {
    match rest
    case Decoded(high, next) => Decoded(low + 128 * high, next)
    case error => error
  }

  /** What remains, from position `at` on, of the varint that begins at `start`. */
  ghost function DecodeFrom(raw: seq<Byte>, start: nat, at: nat): VarintResult
    requires start <= at <= start + 10
    decreases start + 10 - at
  {
    if at == start + 10 || at >= |raw| then Truncated
    else if at == start + 9 && raw[at] > 1 then Overflows
    else if raw[at] < 128 then Decoded(raw[at], at + 1)
    else WithLow(DecodeFrom(raw, start, at + 1), raw[at] % 128)
  }

  ghost function DecodeVarint(raw: seq<Byte>, offset: nat): VarintResult {
    DecodeFrom(raw, offset, offset)
  }

  /** The result once the groups already read, worth `value`, are added below it. */
  ghost function Above(rest: VarintResult, value: nat, power: nat): VarintResult {
    match rest
    case Decoded(high, next) => Decoded(value + power * high, next)
    case error => error
  }

  lemma AboveStep(rest: VarintResult, value: nat, power: nat, low: nat)
    ensures Above(WithLow(rest, low), value, power) == Above(rest, value + low * power, 128 * power)
  {
  }

  /** One group more: the last one ends the varint, any other moves below the rest. */
  lemma ReadStep(raw: seq<Byte>, start: nat, at: nat, value: nat, power: nat)
    requires start <= at < start + 10 && at < |raw| && !(at == start + 9 && raw[at] > 1)
    ensures Above(DecodeFrom(raw, start, at), value, power) ==
              if raw[at] < 128 then Decoded(value + raw[at] % 128 * power, at + 1)
              else Above(DecodeFrom(raw, start, at + 1), value + raw[at] % 128 * power, 128 * power)
  {
    if raw[at] >= 128 {
      AboveStep(DecodeFrom(raw, start, at + 1), value, power, raw[at] % 128);
    }
  }

  lemma LowSeven(current: Byte)
    ensures And(current, 0x7f) == current % 128
  {
    assert Pow2(7) == 128;
    AndMask(current, 7);
  }

  lemma {:induction false} ShiftFits(index: nat)
    requires index <= 9
    ensures 2 * Pow2(63) == TWO64
    ensures index <= 8 ==> 128 * Pow2(7 * index) <= Pow2(63)
    decreases 9 - index
  {
    if index == 9 {
      assert Pow2(7) == 128;
      Pow2Byte(7);
      Pow2Byte(15);
      Pow2Byte(23);
      Pow2Byte(31);
      Pow2Byte(39);
      Pow2Byte(47);
      Pow2Byte(55);
    } else {
      ShiftFits(index + 1);
      Pow2Seven(7 * index);
      assert 7 * (index + 1) == 7 * index + 7;
    }
  }

  /** A group of seven bits, shifted to its place, fits a word and stands above all groups before it, so that or
      is addition there. */
  lemma GroupFits(group: nat, index: nat, value: nat, power: nat)
    requires index <= 9 && group < 128 && (index == 9 ==> group <= 1)
    requires power == Pow2(7 * index) && value < power
    ensures group * power < TWO64
    ensures Or(value, group * power) == value + group * power < TWO64
    ensures 128 * power == Pow2(7 * (index + 1)) && value + group * power < 128 * power
  {
    ShiftFits(index);
    Pow2Seven(7 * index);
    assert 7 * (index + 1) == 7 * index + 7;
    OrAbove(value, group, 7 * index);
    hide Pow2, Or;
    Scaled(group, if index == 9 then 1 else 127, power);
  }

  lemma Scaled(a: nat, b: nat, d: nat)
    requires a <= b
    ensures a * d <= b * d
  {
  }

  /** The two ways in which reading fails, and where it starts. */
  lemma ReadEnds(raw: seq<Byte>, start: nat)
    ensures Pow2(0) == 1
    ensures forall at | start <= at <= start + 10 && (at == start + 10 || at >= |raw|) ::
              DecodeFrom(raw, start, at) == Truncated
    ensures start + 9 < |raw| && raw[start + 9] > 1 ==> DecodeFrom(raw, start, start + 9) == Overflows
  {
  }

  /** The reader puts the low groups together first, each shifted by seven bits more than the one before. */
  method ReadIqiyiVarint(raw: seq<Byte>, offset: nat) returns (result: VarintResult)
    ensures result == DecodeVarint(raw, offset)
  {
    ReadEnds(raw, offset);
    hide Or, And, Pow2, DecodeFrom;
    var value: Word, power: nat := 0, 1;
    var index := 0;
    while index < 10 && offset + index < |raw|
      invariant 0 <= index <= 10
      invariant index < 10 ==> power == Pow2(7 * index) && value < power
      invariant DecodeVarint(raw, offset) == Above(DecodeFrom(raw, offset, offset + index), value, power)
      decreases 10 - index
    {
      var current := raw[offset + index];
      if index == 9 && current > 1 {
        return Overflows;
      }
      ReadStep(raw, offset, offset + index, value, power);
      LowSeven(current);
      GroupFits(current % 128, index, value, power);
      var shifted: Word := And(current, 0x7f) * power;
      value := Or(value, shifted);
      if current < 128 {
        return Decoded(value, offset + index + 1);
      }
      power := 128 * power;
      index := index + 1;
    }
    return Truncated;
  }

  /** Bound on the value still to come when `left` bytes of a 64-bit number may follow. */
  ghost function Room(left: nat): (room: nat)
    ensures left > 0 ==> room >= 2
  {
    if left == 0 then 0 else if left == 1 then 2 else 128 * Room(left - 1)
  }

  lemma RoomIs64Bits()
    ensures Room(10) == TWO64
  {
  }

  lemma {:induction false} DecodeInRangeFrom(raw: seq<Byte>, start: nat, at: nat)
    requires start <= at <= start + 10
    ensures match DecodeFrom(raw, start, at)
            case Decoded(value, next) => at < next <= |raw| && next <= start + 10 && value < Room(start + 10 - at)
            case _ => true
    decreases start + 10 - at
  {
    if at < start + 9 {
      DecodeInRangeFrom(raw, start, at + 1);
      assert Room(start + 10 - at) == 128 * Room(start + 10 - (at + 1));
    }
  }

  /** On arbitrary bytes a decoded varint stays in range, advances by one to ten bytes, and fits 64 bits. */
  lemma DecodeInRange(raw: seq<Byte>, offset: nat)
    ensures match DecodeVarint(raw, offset)
            case Decoded(value, next) => offset < next <= |raw| && next <= offset + 10 && value < TWO64
            case _ => true
  {
    RoomIs64Bits();
    DecodeInRangeFrom(raw, offset, offset);
  }

  lemma {:induction false} FailuresFrom(raw: seq<Byte>, start: nat, at: nat)
    requires start <= at <= start + 9 && at <= |raw|
    ensures DecodeFrom(raw, start, at).Truncated? <==>
              |raw| - start < 10 && forall i | at <= i < |raw| :: raw[i] >= 128
    ensures DecodeFrom(raw, start, at).Overflows? <==>
              |raw| - start >= 10 && raw[start + 9] > 1 && forall i | at <= i < start + 9 :: raw[i] >= 128
    decreases start + 10 - at
  {
    if at < start + 9 && at < |raw| {
      FailuresFrom(raw, start, at + 1);
    }
  }

  /** A varint fails only for lack of bytes or for exceeding 64 bits. */
  lemma DecodeFailures(raw: seq<Byte>, offset: nat)
    requires offset <= |raw|
    ensures DecodeVarint(raw, offset).Truncated? <==>
              |raw| - offset < 10 && forall i | offset <= i < |raw| :: raw[i] >= 128
    ensures DecodeVarint(raw, offset).Overflows? <==>
              |raw| - offset >= 10 && raw[offset + 9] > 1 && forall i | offset <= i < offset + 9 :: raw[i] >= 128
  {
    FailuresFrom(raw, offset, offset);
  }

  ghost predicate At(raw: seq<Byte>, offset: nat, part: seq<Byte>) {
    offset + |part| <= |raw| && raw[offset..offset + |part|] == part
  }

  lemma AtSplit(raw: seq<Byte>, offset: nat, a: seq<Byte>, b: seq<Byte>)
    requires At(raw, offset, a + b)
    ensures At(raw, offset, a) && At(raw, offset + |a|, b)
  {
    var whole := raw[offset..offset + |a + b|];
    assert whole[..|a|] == a && whole[|a|..] == b;
    assert raw[offset..offset + |a|] == whole[..|a|];
    assert raw[offset + |a|..offset + |a| + |b|] == whole[|a|..];
  }

  lemma AtHead(raw: seq<Byte>, offset: nat, part: seq<Byte>)
    requires At(raw, offset, part) && part != []
    ensures offset < |raw| && raw[offset] == part[0]
  {
  }

  lemma {:induction false} VarintRoundTripFrom(raw: seq<Byte>, start: nat, at: nat, v: nat)
    requires start <= at <= start + 9 && v < Room(start + 10 - at)
    requires At(raw, at, EncodeVarint(v))
    ensures DecodeFrom(raw, start, at) == Decoded(v, at + |EncodeVarint(v)|)
    decreases start + 10 - at
  {
    AtHead(raw, at, EncodeVarint(v));
    if v >= 128 {
      var low: Byte := v % 128 + 128;
      assert EncodeVarint(v) == [low] + EncodeVarint(v / 128);
      AtSplit(raw, at, [low], EncodeVarint(v / 128));
      VarintRoundTripFrom(raw, start, at + 1, v / 128);
    }
  }

  /** The reader inverts the base 128 encoding of every uint64, wherever it stands. */
  lemma VarintRoundTrip(raw: seq<Byte>, offset: nat, v: nat)
    requires v < TWO64 && At(raw, offset, EncodeVarint(v))
    ensures DecodeVarint(raw, offset) == Decoded(v, offset + |EncodeVarint(v)|)
  {
    RoomIs64Bits();
    VarintRoundTripFrom(raw, offset, offset, v);
  }

  ghost function Pow128(n: nat): (p: nat)
    ensures p > 0
  {
    if n == 0 then 1 else 128 * Pow128(n - 1)
  }

  /** What base 128 means: bits of seven, lowest first, all bytes but the last with the high bit set. */
  ghost function Worth(s: seq<Byte>): nat {
    if s == [] then 0 else s[0] % 128 + 128 * Worth(s[1..])
  }

  lemma {:induction false} EncodingMeaning(v: nat)
    ensures Worth(EncodeVarint(v)) == v
    ensures EncodeVarint(v)[|EncodeVarint(v)| - 1] < 128
    ensures forall i | 0 <= i < |EncodeVarint(v)| - 1 :: EncodeVarint(v)[i] >= 128
    ensures |EncodeVarint(v)| > 1 ==> v >= Pow128(|EncodeVarint(v)| - 1)
    decreases v
  {
    if v >= 128 {
      EncodingMeaning(v / 128);
      var rest := EncodeVarint(v / 128);
      assert EncodeVarint(v)[1..] == rest;
      assert |rest| == 1 ==> Pow128(1) == 128;
    }
  }

  // ----- fields -----

  datatype Field = Field(number: nat, value: string, bytes: seq<Byte>)

  datatype Problem = VarintOverflows | VarintTruncated | Fixed64Truncated | BytesTruncated | Fixed32Truncated

  datatype Fields = Fields(list: seq<Field>) | Bad(problem: Problem)

  /** A Go string made of these bytes. */
  function AsString(bytes: seq<Byte>): string {
    seq(|bytes|, i requires 0 <= i < |bytes| => bytes[i] as char)
  }

  function VarintProblem(result: VarintResult): Problem
    requires !result.Decoded?
  {
    if result.Overflows? then VarintOverflows else VarintTruncated
  }

  ghost function Prepend(fields: seq<Field>, rest: Fields): Fields {
    match rest
    case Fields(list) => Fields(fields + list)
    case Bad(_) => rest
  }

  /** What follows a key, and where the next key is. */
  datatype Body = Body(field: Field, next: nat) | BadBody(problem: Problem) | UnknownWire

  ghost function ParseBody(raw: seq<Byte>, offset: nat, number: nat, wire: nat): Body
    requires offset <= |raw|
  {
    if wire == 0 then
      var v := DecodeVarint(raw, offset);
      if v.Decoded? then Body(Field(number, FormatUint(v.value), []), v.next) else BadBody(VarintProblem(v))
    else if wire == 1 then
      if |raw| - offset < 8 then BadBody(Fixed64Truncated) else Body(Field(number, "", []), offset + 8)
    else if wire == 2 then
      var v := DecodeVarint(raw, offset);
      if !v.Decoded? then BadBody(VarintProblem(v))
      else if v.value > |raw| - v.next then BadBody(BytesTruncated)
      else
        var bytes := raw[v.next..v.next + v.value];
        Body(Field(number, AsString(bytes), bytes), v.next + v.value)
    else if wire == 5 then
      if |raw| - offset < 4 then BadBody(Fixed32Truncated) else Body(Field(number, "", []), offset + 4)
    else UnknownWire
  }

  ghost function ParseFrom(raw: seq<Byte>, offset: nat): Fields
    decreases |raw| - offset
  {
    if offset >= |raw| then Fields([])
    else
      var key := DecodeVarint(raw, offset);
      if !key.Decoded? then Bad(VarintProblem(key))
      else if key.value / 8 == 0 then Fields([])
      else
        DecodeInRange(raw, offset);
        match ParseBody(raw, key.next, key.value / 8, key.value % 8)
        case UnknownWire => Fields([])
        case BadBody(problem) => Bad(problem)
        case Body(field, next) =>
          BodyAdvances(raw, key.next, key.value / 8, key.value % 8);
          Prepend([field], ParseFrom(raw, next))
  }

  lemma BodyAdvances(raw: seq<Byte>, offset: nat, number: nat, wire: nat)
    requires offset <= |raw|
    ensures match ParseBody(raw, offset, number, wire)
            case Body(field, next) => offset <= next <= |raw| && field.number == number
            case _ => true
  {
    DecodeInRange(raw, offset);
  }

  /** The cases of one field. Every index is in range. */
  method ReadBody(raw: seq<Byte>, offset: nat, number: nat, wireType: nat) returns (body: Body)
    requires offset <= |raw|
    ensures body == ParseBody(raw, offset, number, wireType)
  {
    DecodeInRange(raw, offset);
    var field := Field(number, "", []);
    if wireType == 0 {
      var v := ReadIqiyiVarint(raw, offset);
      if !v.Decoded? {
        return BadBody(VarintProblem(v));
      }
      return Body(field.(value := FormatUint(v.value)), v.next);
    } else if wireType == 1 {
      if |raw| - offset < 8 {
        return BadBody(Fixed64Truncated);
      }
      return Body(field, offset + 8);
    } else if wireType == 2 {
      var v := ReadIqiyiVarint(raw, offset);
      if !v.Decoded? {
        return BadBody(VarintProblem(v));
      }
      if v.value > |raw| - v.next {
        return BadBody(BytesTruncated);
      }
      var end := v.next + v.value;
      return Body(field.(bytes := raw[v.next..end], value := AsString(raw[v.next..end])), end);
    } else if wireType == 5 {
      if |raw| - offset < 4 {
        return BadBody(Fixed32Truncated);
      }
      return Body(field, offset + 4);
    } else {
      return UnknownWire;
    }
  }

  /** The loop of the reader. Each field brings the offset forward, so it ends on arbitrary bytes. */
  method ParseIqiyiProtoFields(raw: seq<Byte>) returns (result: Fields)
    ensures result == ParseFrom(raw, 0)
  {
    var fields: seq<Field> := [];
    var offset := 0;
    while offset < |raw|
      invariant 0 <= offset <= |raw|
      invariant ParseFrom(raw, 0) == Prepend(fields, ParseFrom(raw, offset))
    {
      var key := ReadIqiyiVarint(raw, offset);
      if !key.Decoded? {
        return Bad(VarintProblem(key));
      }
      DecodeInRange(raw, offset);
      var number, wireType := key.value / 8, key.value % 8;
      if number == 0 {
        break;
      }
      var body := ReadBody(raw, key.next, number, wireType);
      if body.BadBody? {
        return Bad(body.problem);
      }
      if body.UnknownWire? {
        return Fields(fields);
      }
      BodyAdvances(raw, key.next, number, wireType);
      PrependTwice(fields, body.field, ParseFrom(raw, body.next));
      fields, offset := fields + [body.field], body.next;
    }
    return Fields(fields);
  }

  lemma PrependTwice(fields: seq<Field>, field: Field, rest: Fields)
    ensures Prepend(fields, Prepend([field], rest)) == Prepend(fields + [field], rest)
  {
  }

  // ----- the writer -----

  /** The writer here makes the first two kinds only; the others come from elsewhere. */
  datatype Out =
    | Varint(number: nat, value: nat)
    | Bytes(number: nat, payload: seq<Byte>)
    | Fixed64(number: nat, raw: seq<Byte>)
    | Fixed32(number: nat, raw: seq<Byte>)

  predicate Writable(out: Out) {
    && out.number >= 1 && out.number * 8 + 7 < TWO64
    && match out
       case Varint(_, value) => value < TWO64
       case Bytes(_, payload) => |payload| < MAX_LENGTH
       case Fixed64(_, raw) => |raw| == 8
       case Fixed32(_, raw) => |raw| == 4
  }

  function Tag(number: nat, wire: nat): seq<Byte> {
    EncodeVarint(number * 8 + wire)
  }

  function WireType(out: Out): nat {
    match out
    case Varint(_, _) => 0
    case Fixed64(_, _) => 1
    case Bytes(_, _) => 2
    case Fixed32(_, _) => 5
  }

  function Payload(out: Out): seq<Byte> {
    match out
    case Varint(_, value) => EncodeVarint(value)
    case Bytes(_, payload) => EncodeVarint(|payload|) + payload
    case Fixed64(_, raw) => raw
    case Fixed32(_, raw) => raw
  }

  function Write(out: Out): seq<Byte> {
    Tag(out.number, WireType(out)) + Payload(out)
  }

  ghost function WriteAll(outs: seq<Out>): seq<Byte> {
    Collect(Write, outs)
  }

  lemma WriteAllFirst(outs: seq<Out>)
    requires outs != []
    ensures WriteAll(outs) == Write(outs[0]) + WriteAll(outs[1..])
  {
    hide Write;
    CollectFirst(Write, outs[0], outs[1..]);
    assert outs == [outs[0]] + outs[1..];
  }

  function ReadBack(out: Out): Field {
    match out
    case Varint(number, value) => Field(number, FormatUint(value), [])
    case Bytes(number, payload) => Field(number, AsString(payload), payload)
    case Fixed64(number, _) => Field(number, "", [])
    case Fixed32(number, _) => Field(number, "", [])
  }

  function ReadBackAll(outs: seq<Out>): seq<Field> {
    seq(|outs|, i requires 0 <= i < |outs| => ReadBack(outs[i]))
  }

  lemma BodyRoundTrip(raw: seq<Byte>, offset: nat, out: Out)
    requires Writable(out) && At(raw, offset, Payload(out))
    ensures ParseBody(raw, offset, out.number, WireType(out)) == Body(ReadBack(out), offset + |Payload(out)|)
  {
    match out
    case Varint(_, value) => VarintRoundTrip(raw, offset, value);
    case Bytes(_, payload) =>
      AtSplit(raw, offset, EncodeVarint(|payload|), payload);
      VarintRoundTrip(raw, offset, |payload|);
    case _ =>
  }

  lemma KeyParts(number: nat, wire: nat)
    requires wire < 8
    ensures (number * 8 + wire) / 8 == number && (number * 8 + wire) % 8 == wire
  {
  }

  /** The key of a written field is read back, and the payload stands behind it. */
  lemma KeyRoundTrip(raw: seq<Byte>, offset: nat, out: Out) returns (next: nat)
    requires Writable(out) && At(raw, offset, Write(out))
    ensures offset < |raw| && DecodeVarint(raw, offset) == Decoded(out.number * 8 + WireType(out), next)
    ensures At(raw, next, Payload(out)) && next + |Payload(out)| == offset + |Write(out)|
  {
    var key := Tag(out.number, WireType(out));
    AtSplit(raw, offset, key, Payload(out));
    VarintRoundTrip(raw, offset, out.number * 8 + WireType(out));
    next := offset + |key|;
  }

  lemma ParseStep(raw: seq<Byte>, offset: nat, key: nat, body: nat, field: Field, next: nat)
    requires offset < |raw| && DecodeVarint(raw, offset) == Decoded(key, body) && key / 8 != 0
    requires body <= |raw| && ParseBody(raw, body, key / 8, key % 8) == Body(field, next)
    ensures ParseFrom(raw, offset) == Prepend([field], ParseFrom(raw, next))
  {
  }

  lemma FieldRoundTrip(raw: seq<Byte>, offset: nat, out: Out)
    requires Writable(out) && At(raw, offset, Write(out))
    ensures ParseFrom(raw, offset) == Prepend([ReadBack(out)], ParseFrom(raw, offset + |Write(out)|))
  {
    hide ParseFrom, ParseBody, DecodeVarint, Payload, Write, ReadBack;
    var next := KeyRoundTrip(raw, offset, out);
    KeyParts(out.number, WireType(out));
    BodyRoundTrip(raw, next, out);
    ParseStep(raw, offset, out.number * 8 + WireType(out), next, ReadBack(out), next + |Payload(out)|);
  }

  /** What stands from here to the end. */
  ghost predicate Ends(raw: seq<Byte>, offset: nat, part: seq<Byte>) {
    offset <= |raw| && raw[offset..] == part
  }

  lemma EndsSplit(raw: seq<Byte>, offset: nat, a: seq<Byte>, b: seq<Byte>)
    requires Ends(raw, offset, a + b)
    ensures At(raw, offset, a) && Ends(raw, offset + |a|, b)
  {
  }

  /** The written fields are read back one by one, and the reader goes on with what stands behind them. */
  lemma {:induction false} FieldsThen(raw: seq<Byte>, offset: nat, outs: seq<Out>, tail: seq<Byte>)
    requires forall out | out in outs :: Writable(out)
    requires Ends(raw, offset, WriteAll(outs) + tail)
    ensures Ends(raw, offset + |WriteAll(outs)|, tail)
    ensures ParseFrom(raw, offset) == Prepend(ReadBackAll(outs), ParseFrom(raw, offset + |WriteAll(outs)|))
    decreases outs
  {
    hide *;
    if outs == [] {
      NothingWritten(tail);
      PrependNothing(ParseFrom(raw, offset));
    } else {
      FirstThen(raw, offset, outs, tail);
      FieldsThen(raw, offset + |Write(outs[0])|, outs[1..], tail);
      ReadBackFirst(outs);
      PrependFirst(ReadBack(outs[0]), ReadBackAll(outs[1..]), ParseFrom(raw, offset + |WriteAll(outs)|));
    }
  }

  lemma NothingWritten(tail: seq<Byte>)
    ensures WriteAll([]) == [] && ReadBackAll([]) == [] && WriteAll([]) + tail == tail
  {
  }

  lemma PrependNothing(rest: Fields)
    ensures Prepend([], rest) == rest
  {
  }

  lemma FirstThen(raw: seq<Byte>, offset: nat, outs: seq<Out>, tail: seq<Byte>)
    requires outs != [] && Writable(outs[0]) && Ends(raw, offset, WriteAll(outs) + tail)
    ensures |WriteAll(outs)| == |Write(outs[0])| + |WriteAll(outs[1..])|
    ensures Ends(raw, offset + |Write(outs[0])|, WriteAll(outs[1..]) + tail)
    ensures ParseFrom(raw, offset) == Prepend([ReadBack(outs[0])], ParseFrom(raw, offset + |Write(outs[0])|))
  {
    hide *;
    WriteAllFirst(outs);
    Regroup(Write(outs[0]), WriteAll(outs[1..]), tail);
    EndsSplit(raw, offset, Write(outs[0]), WriteAll(outs[1..]) + tail);
    FieldRoundTrip(raw, offset, outs[0]);
  }

  lemma Regroup<A>(a: seq<A>, b: seq<A>, c: seq<A>)
    ensures (a + b) + c == a + (b + c)
  {
  }

  lemma PrependFirst(field: Field, fields: seq<Field>, rest: Fields)
    ensures Prepend([field], Prepend(fields, rest)) == Prepend([field] + fields, rest)
  {
  }

  lemma ReadBackFirst(outs: seq<Out>)
    requires outs != []
    ensures ReadBackAll(outs) == [ReadBack(outs[0])] + ReadBackAll(outs[1..])
  {
  }

  /** Reading what was written returns exactly the fields, in order. */
  lemma FieldsRoundTrip(outs: seq<Out>)
    requires forall out | out in outs :: Writable(out)
    ensures ParseFrom(WriteAll(outs), 0) == Fields(ReadBackAll(outs))
  {
    var raw := WriteAll(outs);
    assert raw[0..] == raw + [];
    FieldsThen(raw, 0, outs, []);
  }

  /** Behind written fields, a key of field number zero or of a wire type that is not known ends the reading, and
      the fields before it stay. */
  lemma ReadingStops(outs: seq<Out>, key: nat, rest: seq<Byte>)
    requires forall out | out in outs :: Writable(out)
    requires key < TWO64 && (key < 8 || key % 8 in {3, 4, 6, 7})
    ensures ParseFrom(WriteAll(outs) + (EncodeVarint(key) + rest), 0) == Fields(ReadBackAll(outs))
  {
    hide WriteAll, ReadBackAll, Writable;
    var tail := EncodeVarint(key) + rest;
    var raw, offset := WriteAll(outs) + tail, |WriteAll(outs)|;
    assert raw[0..] == raw;
    FieldsThen(raw, 0, outs, tail);
    EndsSplit(raw, offset, EncodeVarint(key), rest);
    hide EncodeVarint, DecodeVarint;
    VarintRoundTrip(raw, offset, key);
  }

  /** What is wrong with the content of a field that breaks off. */
  ghost predicate BreaksOff(wire: nat, rest: seq<Byte>, problem: Problem) {
    || (wire == 1 && |rest| < 8 && problem == Fixed64Truncated)
    || (wire == 5 && |rest| < 4 && problem == Fixed32Truncated)
    || (wire in {0, 2} && |rest| < 10 && problem == VarintTruncated && forall i | 0 <= i < |rest| :: rest[i] >= 128)
    || (wire in {0, 2} && |rest| >= 10 && problem == VarintOverflows && rest[9] > 1
        && forall i | 0 <= i < 9 :: rest[i] >= 128)
    || (wire == 2 && problem == BytesTruncated
        && exists length: nat, part: seq<Byte> ::
             length < TWO64 && |part| < length && rest == EncodeVarint(length) + part)
  }

  lemma BodyFails(raw: seq<Byte>, offset: nat, number: nat, wire: nat, rest: seq<Byte>, problem: Problem)
    requires Ends(raw, offset, rest) && BreaksOff(wire, rest, problem)
    ensures ParseBody(raw, offset, number, wire) == BadBody(problem)
  {
    hide EncodeVarint, DecodeVarint;
    assert |raw| - offset == |rest| && forall i | 0 <= i < |rest| :: raw[offset + i] == rest[i];
    DecodeFailures(raw, offset);
    if problem == BytesTruncated {
      var length: nat, part: seq<Byte> :|
        length < TWO64 && |part| < length && rest == EncodeVarint(length) + part;
      EndsSplit(raw, offset, EncodeVarint(length), part);
      VarintRoundTrip(raw, offset, length);
    }
  }

  /** Behind written fields, a field that breaks off fails the whole reading with its own problem. */
  lemma ReadingFails(outs: seq<Out>, number: nat, wire: nat, rest: seq<Byte>, problem: Problem)
    requires forall out | out in outs :: Writable(out)
    requires number >= 1 && wire < 8 && number * 8 + wire < TWO64 && BreaksOff(wire, rest, problem)
    ensures ParseFrom(WriteAll(outs) + (EncodeVarint(number * 8 + wire) + rest), 0) == Bad(problem)
  {
    hide WriteAll, ReadBackAll, Writable, BreaksOff, ParseFrom;
    var key := number * 8 + wire;
    var tail := EncodeVarint(key) + rest;
    var raw, offset := WriteAll(outs) + tail, |WriteAll(outs)|;
    assert raw[0..] == raw;
    FieldsThen(raw, 0, outs, tail);
    EndsSplit(raw, offset, EncodeVarint(key), rest);
    hide EncodeVarint, DecodeVarint, ParseBody;
    VarintRoundTrip(raw, offset, key);
    KeyParts(number, wire);
    BodyFails(raw, offset + |EncodeVarint(key)|, number, wire, rest, problem);
    FailStep(raw, offset, key, offset + |EncodeVarint(key)|, problem);
  }

  lemma FailStep(raw: seq<Byte>, offset: nat, key: nat, body: nat, problem: Problem)
    requires offset < |raw| && DecodeVarint(raw, offset) == Decoded(key, body) && key / 8 != 0
    requires body <= |raw| && ParseBody(raw, body, key / 8, key % 8) == BadBody(problem)
    ensures ParseFrom(raw, offset) == Bad(problem)
  {
  }

  /** The examples of the encoding guide: the number 300, field 1 with the number 150, field 2 with a text. */
  lemma GuideExamples(text: seq<Byte>)
    requires |text| == 7
    ensures EncodeVarint(300) == [0xAC, 0x02]
    ensures Write(Varint(1, 150)) == [0x08, 0x96, 0x01]
    ensures Write(Bytes(2, text)) == [0x12, 0x07] + text
  {
    assert EncodeVarint(2) == [2] && EncodeVarint(1) == [1] && EncodeVarint(150) == [0x96] + EncodeVarint(1);
    assert EncodeVarint(8) == [8] && EncodeVarint(18) == [18] && EncodeVarint(7) == [7];
  }
}
