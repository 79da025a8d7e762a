/** Nested messages over the wire format: the danuni export of internal/api/export.go read back field by
    field, and the comment documents that internal/api/iqiyi.go reads. */
module WireMessages {
  import opened Collecting
  import opened Decimal
  import opened Domain
  import opened Text
  import opened Wire

  // ----- the danuni export -----

  datatype DanuniItem = DanuniItem(
    soid: seq<Byte>, dmid: seq<Byte>, progress: int, mode: int, fontSize: int, color: int,
    senderID: seq<Byte>, content: seq<Byte>, ctime: int, weight: int, pool: int, platform: seq<Byte>)

  /** The conversion of an int64 to uint64. */
  function Uint64(x: int): nat {
    x % TWO64
  }

  ghost function TimestampFields(item: DanuniItem): seq<Out> {
    [Varint(1, Uint64(item.ctime))]
  }

  ghost function MessageFields(item: DanuniItem): seq<Out> {
    [ Bytes(1, item.soid), Bytes(2, item.dmid), Varint(3, Uint64(item.progress)), Varint(4, Uint64(item.mode)),
      Varint(5, Uint64(item.fontSize)), Varint(6, Uint64(item.color)), Bytes(7, item.senderID),
      Bytes(8, item.content), Bytes(9, WriteAll(TimestampFields(item))), Varint(10, Uint64(item.weight)),
      Varint(11, Uint64(item.pool)), Bytes(13, item.platform) ]
  }

  ghost function Message(item: DanuniItem): seq<Byte> {
    WriteAll(MessageFields(item))
  }

  ghost function Envelope(items: seq<DanuniItem>): seq<Out> {
    seq(|items|, i requires 0 <= i < |items| => Bytes(1, Message(items[i])))
  }

  /** One append to a buffer that holds the first k of `outs`. */
  method Append(target: seq<Byte>, ghost outs: seq<Out>, ghost k: nat, out: Out) returns (extended: seq<Byte>)
    requires k < |outs| && outs[k] == out && target == WriteAll(outs[..k])
    ensures extended == WriteAll(outs[..k + 1])
  {
    hide Write;
    extended := target + Write(out);
    CollectNext(Write, outs, k);
  }

  /** The first six appends of a message. */
  method WriteHead(item: DanuniItem) returns (message: seq<Byte>)
    ensures message == WriteAll(MessageFields(item)[..6])
  {
    ghost var outs := MessageFields(item);
    assert WriteAll(outs[..0]) == [];
    MessageOuts(item);
    hide WriteAll, MessageFields;
    message := Append([], outs, 0, Bytes(1, item.soid));
    message := Append(message, outs, 1, Bytes(2, item.dmid));
    message := Append(message, outs, 2, Varint(3, Uint64(item.progress)));
    message := Append(message, outs, 3, Varint(4, Uint64(item.mode)));
    message := Append(message, outs, 4, Varint(5, Uint64(item.fontSize)));
    message := Append(message, outs, 5, Varint(6, Uint64(item.color)));
  }

  method WriteTimestamp(item: DanuniItem) returns (timestamp: seq<Byte>)
    ensures timestamp == WriteAll(TimestampFields(item))
  {
    timestamp := Append([], TimestampFields(item), 0, Varint(1, Uint64(item.ctime)));
    assert TimestampFields(item)[..1] == TimestampFields(item);
  }

  method WriteMessage(item: DanuniItem) returns (message: seq<Byte>)
    ensures message == Message(item)
  {
    ghost var outs := MessageFields(item);
    MessageOuts(item);
    hide WriteAll, MessageFields, TimestampFields;
    message := WriteHead(item);
    message := Append(message, outs, 6, Bytes(7, item.senderID));
    message := Append(message, outs, 7, Bytes(8, item.content));
    var timestamp := WriteTimestamp(item);
    message := Append(message, outs, 8, Bytes(9, timestamp));
    message := Append(message, outs, 9, Varint(10, Uint64(item.weight)));
    message := Append(message, outs, 10, Varint(11, Uint64(item.pool)));
    message := Append(message, outs, 11, Bytes(13, item.platform));
    assert outs[..12] == outs;
  }

  method DanuniProtobuf(items: seq<DanuniItem>) returns (response: seq<Byte>)
    ensures response == WriteAll(Envelope(items))
    ensures (forall item | item in items :: Fits(item)) ==>
              && ParseFrom(response, 0).Fields? && |ParseFrom(response, 0).list| == |items|
              && forall i | 0 <= i < |items| ::
                   var field := ParseFrom(response, 0).list[i]; field.number == 1 && HoldsItem(field.bytes, items[i])
  {
    if forall item | item in items :: Fits(item) {
      ExportRead(items);
    }
    response := [];
    for n := 0 to |items|
      invariant response == WriteAll(Envelope(items)[..n])
    {
      var message := WriteMessage(items[n]);
      response := Append(response, Envelope(items), n, Bytes(1, message));
    }
    assert Envelope(items)[..|items|] == Envelope(items);
  }

  /** The item fits a Go slice. */
  ghost predicate InMemory(item: DanuniItem) {
    && |Message(item)| < MAX_LENGTH
    && |item.soid| < MAX_LENGTH && |item.dmid| < MAX_LENGTH && |item.senderID| < MAX_LENGTH
    && |item.content| < MAX_LENGTH && |item.platform| < MAX_LENGTH
  }

  lemma TimestampRoundTrip(item: DanuniItem)
    ensures ParseFrom(WriteAll(TimestampFields(item)), 0) == Fields([Field(1, FormatUint(Uint64(item.ctime)), [])])
    ensures |WriteAll(TimestampFields(item))| < 100
  {
    FieldsRoundTrip(TimestampFields(item));
    assert ReadBackAll(TimestampFields(item)) == [Field(1, FormatUint(Uint64(item.ctime)), [])];
    WriteAllFirst(TimestampFields(item));
    assert TimestampFields(item)[1..] == [] && WriteAll([]) == [];
    VarintLength(8);
    VarintLength(Uint64(item.ctime));
  }

  lemma VarintLength(v: nat)
    requires v < TWO64
    ensures |EncodeVarint(v)| <= 10
  {
    var raw := EncodeVarint(v);
    assert raw[0..|raw|] == raw;
    VarintRoundTrip(raw, 0, v);
    DecodeInRange(raw, 0);
  }

  lemma MessageWritable(item: DanuniItem)
    requires InMemory(item)
    ensures forall out | out in MessageFields(item) :: Writable(out)
  {
    TimestampRoundTrip(item);
  }

  /** One exported comment read back: its twelve fields, of which the ninth holds the timestamp message. */
  lemma MessageRoundTrip(item: DanuniItem)
    requires InMemory(item)
    ensures ParseFrom(Message(item), 0) == Fields(ReadBackAll(MessageFields(item)))
    ensures ReadBackAll(MessageFields(item))[8].number == 9
    ensures ParseFrom(ReadBackAll(MessageFields(item))[8].bytes, 0)
         == Fields([Field(1, FormatUint(Uint64(item.ctime)), [])])
  {
    TimestampRoundTrip(item);
    MessageWritable(item);
    FieldsRoundTrip(MessageFields(item));
  }

  /** The export read back: one field per comment, in order, each holding that comment's message. */
  lemma DanuniRoundTrip(items: seq<DanuniItem>)
    requires forall item | item in items :: InMemory(item)
    ensures ParseFrom(WriteAll(Envelope(items)), 0)
         == Fields(seq(|items|, i requires 0 <= i < |items| =>
                     Field(1, AsString(Message(items[i])), Message(items[i]))))
  {
    forall out | out in Envelope(items)
      ensures Writable(out)
    {
      var i :| 0 <= i < |items| && out == Envelope(items)[i];
      assert InMemory(items[i]);
    }
    FieldsRoundTrip(Envelope(items));
    var fields := seq(|items|, i requires 0 <= i < |items| => Field(1, AsString(Message(items[i])), Message(items[i])));
    assert ReadBackAll(Envelope(items)) == fields;
  }

  /** The value of the first field with this number, or nothing. */
  ghost function FirstValue(fields: seq<Field>, number: nat): string {
    if fields == [] then ""
    else if fields[0].number == number then fields[0].value
    else FirstValue(fields[1..], number)
  }

  lemma {:induction false} FirstValueAt(fields: seq<Field>, number: nat, k: nat)
    requires k < |fields| && fields[k].number == number
    requires forall j | 0 <= j < k :: fields[j].number != number
    ensures FirstValue(fields, number) == fields[k].value
  {
    if k > 0 {
      FirstValueAt(fields[1..], number, k - 1);
    }
  }

  /** A 64-bit integer as the decimal text of its two's complement. */
  function Decimal64(x: int): string
    requires -0x8000_0000_0000_0000 <= x < 0x8000_0000_0000_0000
  {
    if x >= 0 then FormatUint(x) else FormatUint(x + 0x1_0000_0000_0000_0000)
  }

  predicate IsInt64(x: int) {
    -0x8000_0000_0000_0000 <= x < 0x8000_0000_0000_0000
  }

  /** The texts and numbers of the item are those of a running program. */
  predicate Fits(item: DanuniItem) {
    && |item.soid| < 0x400_0000_0000_0000 && |item.dmid| < 0x400_0000_0000_0000
    && |item.senderID| < 0x400_0000_0000_0000 && |item.content| < 0x400_0000_0000_0000
    && |item.platform| < 0x400_0000_0000_0000
    && IsInt64(item.progress) && IsInt64(item.mode) && IsInt64(item.fontSize) && IsInt64(item.color)
    && IsInt64(item.ctime) && IsInt64(item.weight) && IsInt64(item.pool)
  }

  /** Which value stands under which field number, as a reader finds it in the bytes. */
  ghost predicate HoldsItem(bytes: seq<Byte>, item: DanuniItem)
    requires Fits(item)
  {
    && ParseFrom(bytes, 0).Fields?
    && var f := ParseFrom(bytes, 0).list;
       && |f| == 12
       && FirstValue(f, 1) == AsString(item.soid) && FirstValue(f, 2) == AsString(item.dmid)
       && FirstValue(f, 3) == Decimal64(item.progress) && FirstValue(f, 4) == Decimal64(item.mode)
       && FirstValue(f, 5) == Decimal64(item.fontSize) && FirstValue(f, 6) == Decimal64(item.color)
       && FirstValue(f, 7) == AsString(item.senderID) && FirstValue(f, 8) == AsString(item.content)
       && FirstValue(f, 10) == Decimal64(item.weight) && FirstValue(f, 11) == Decimal64(item.pool)
       && FirstValue(f, 13) == AsString(item.platform)
       && f[8].number == 9 && ParseFrom(f[8].bytes, 0) == Fields([Field(1, Decimal64(item.ctime), [])])
  }

  lemma {:induction false} WriteAllLength(outs: seq<Out>, bound: nat)
    requires forall out | out in outs :: |Write(out)| <= bound
    ensures |WriteAll(outs)| <= |outs| * bound
  {
    if outs != [] {
      WriteAllFirst(outs);
      hide WriteAll, Write;
      WriteAllLength(outs[1..], bound);
      OneMore(|outs[1..]|, bound);
    }
  }

  lemma OneMore(n: nat, d: nat)
    ensures (n + 1) * d == n * d + d
  {
  }

  /** At most ten bytes of key and ten of length before a payload. */
  lemma WriteLength(out: Out)
    requires Writable(out)
    ensures |Write(out)| <= 20 + if out.Bytes? then |out.payload| else 0
  {
    VarintLength(out.number * 8 + WireType(out));
    match out
    case Varint(_, value) => VarintLength(value);
    case Bytes(_, payload) => VarintLength(|payload|);
    case _ =>
  }

  lemma FieldsAreShort(item: DanuniItem)
    requires Fits(item)
    ensures forall out | out in MessageFields(item) :: |Write(out)| <= 0x400_0000_0000_0020
  {
    TimestampRoundTrip(item);
    hide WriteAll, Write, EncodeVarint;
    forall out | out in MessageFields(item)
      ensures Writable(out) && (out.Bytes? ==> |out.payload| <= 0x400_0000_0000_0000)
    {
    }
    forall out | out in MessageFields(item)
      ensures |Write(out)| <= 0x400_0000_0000_0020
    {
      WriteLength(out);
    }
  }

  lemma FitsInMemory(item: DanuniItem)
    requires Fits(item)
    ensures InMemory(item)
  {
    FieldsAreShort(item);
    WriteAllLength(MessageFields(item), 0x400_0000_0000_0020);
    hide WriteAll;
    assert |MessageFields(item)| == 12;
  }

  lemma SignedText(x: int)
    requires IsInt64(x)
    ensures FormatUint(Uint64(x)) == Decimal64(x)
  {
    assert x < 0 ==> x % TWO64 == x + TWO64;
  }

  lemma SignedTexts(item: DanuniItem)
    requires Fits(item)
    ensures FormatUint(Uint64(item.progress)) == Decimal64(item.progress)
    ensures FormatUint(Uint64(item.mode)) == Decimal64(item.mode)
    ensures FormatUint(Uint64(item.fontSize)) == Decimal64(item.fontSize)
    ensures FormatUint(Uint64(item.color)) == Decimal64(item.color)
    ensures FormatUint(Uint64(item.ctime)) == Decimal64(item.ctime)
    ensures FormatUint(Uint64(item.weight)) == Decimal64(item.weight)
    ensures FormatUint(Uint64(item.pool)) == Decimal64(item.pool)
  {
    hide Decimal64, Uint64, FormatUint;
    SignedText(item.progress);
    SignedText(item.mode);
    SignedText(item.fontSize);
    SignedText(item.color);
    SignedText(item.ctime);
    SignedText(item.weight);
    SignedText(item.pool);
  }

  /** Where each number stands among the twelve fields. */
  ghost predicate Labelled(f: seq<Field>) {
    && |f| == 12 && f[11].number == 13
    && forall k | 0 <= k < 11 :: f[k].number == k + 1
  }

  lemma LabelledValue(f: seq<Field>, k: nat)
    requires Labelled(f) && k < 12
    ensures FirstValue(f, f[k].number) == f[k].value
  {
    FirstValueAt(f, f[k].number, k);
  }

  lemma LabelledValues(f: seq<Field>)
    requires Labelled(f)
    ensures FirstValue(f, 1) == f[0].value && FirstValue(f, 2) == f[1].value && FirstValue(f, 3) == f[2].value
    ensures FirstValue(f, 4) == f[3].value && FirstValue(f, 5) == f[4].value && FirstValue(f, 6) == f[5].value
    ensures FirstValue(f, 7) == f[6].value && FirstValue(f, 8) == f[7].value && FirstValue(f, 10) == f[9].value
    ensures FirstValue(f, 11) == f[10].value && FirstValue(f, 13) == f[11].value
  {
    hide FirstValue;
    forall k | 0 <= k < 12
      ensures FirstValue(f, f[k].number) == f[k].value
    {
      LabelledValue(f, k);
    }
    assert f[0].number == 1 && f[1].number == 2 && f[2].number == 3 && f[3].number == 4;
    assert f[4].number == 5 && f[5].number == 6 && f[6].number == 7 && f[7].number == 8;
    assert f[9].number == 10 && f[10].number == 11;
  }

  lemma MessageLabelled(item: DanuniItem)
    ensures Labelled(ReadBackAll(MessageFields(item)))
  {
    var outs := MessageFields(item);
    assert forall k | 0 <= k < 12 :: outs[k].number == if k < 11 then k + 1 else 13;
  }

  lemma MessageValues(item: DanuniItem, f: seq<Field>)
    requires Fits(item) && f == ReadBackAll(MessageFields(item))
    ensures |f| == 12
    ensures f[0].value == AsString(item.soid) && f[1].value == AsString(item.dmid)
    ensures f[2].value == Decimal64(item.progress) && f[3].value == Decimal64(item.mode)
    ensures f[4].value == Decimal64(item.fontSize) && f[5].value == Decimal64(item.color)
    ensures f[6].value == AsString(item.senderID) && f[7].value == AsString(item.content)
    ensures f[9].value == Decimal64(item.weight) && f[10].value == Decimal64(item.pool)
    ensures f[11].value == AsString(item.platform)
  {
    SignedTexts(item);
    MessageOuts(item);
    hide MessageFields, ReadBackAll, ReadBack, Decimal64, Uint64, FormatUint, AsString, Fits;
    ReadBackAt(MessageFields(item), f);
  }

  lemma MessageOuts(item: DanuniItem)
    ensures var outs := MessageFields(item);
            && |outs| == 12
            && outs[0] == Bytes(1, item.soid) && outs[1] == Bytes(2, item.dmid)
            && outs[2] == Varint(3, Uint64(item.progress)) && outs[3] == Varint(4, Uint64(item.mode))
            && outs[4] == Varint(5, Uint64(item.fontSize)) && outs[5] == Varint(6, Uint64(item.color))
            && outs[6] == Bytes(7, item.senderID) && outs[7] == Bytes(8, item.content)
            && outs[8] == Bytes(9, WriteAll(TimestampFields(item)))
            && outs[9] == Varint(10, Uint64(item.weight)) && outs[10] == Varint(11, Uint64(item.pool))
            && outs[11] == Bytes(13, item.platform)
  {
  }

  lemma ReadBackAt(outs: seq<Out>, f: seq<Field>)
    requires f == ReadBackAll(outs)
    ensures |f| == |outs|
    ensures forall k | 0 <= k < |outs| ::
              f[k].value == if outs[k].Bytes? then AsString(outs[k].payload)
                            else if outs[k].Varint? then FormatUint(outs[k].value) else ""
  {
  }

  lemma MessageHolds(item: DanuniItem)
    requires Fits(item)
    ensures HoldsItem(Message(item), item)
  {
    FitsInMemory(item);
    MessageRoundTrip(item);
    SignedText(item.ctime);
    MessageLabelled(item);
    var f := ReadBackAll(MessageFields(item));
    MessageValues(item, f);
    LabelledValues(f);
    hide Message, MessageFields, ReadBackAll, FirstValue, Decimal64, Uint64, FormatUint, ParseFrom, AsString, Labelled;
  }

  lemma ExportRead(items: seq<DanuniItem>)
    requires forall item | item in items :: Fits(item)
    ensures var read := ParseFrom(WriteAll(Envelope(items)), 0);
            && read.Fields? && |read.list| == |items|
            && forall i | 0 <= i < |items| :: read.list[i].number == 1 && HoldsItem(read.list[i].bytes, items[i])
  {
    hide HoldsItem, Message, ParseFrom, Fits;
    forall item | item in items
      ensures InMemory(item) && HoldsItem(Message(item), item)
    {
      FitsInMemory(item);
      MessageHolds(item);
    }
    DanuniRoundTrip(items);
  }

  // ----- iqiyi comment documents -----

  datatype Comment = Comment(content: string, time: string)

  method IqiyiProtoString(fields: seq<Field>, number: nat) returns (value: string)
    ensures value == FirstValue(fields, number)
  {
    for n := 0 to |fields|
      invariant FirstValue(fields, number) == FirstValue(fields[n..], number)
    {
      if fields[n].number == number {
        return fields[n].value;
      }
    }
    return "";
  }

  ghost function CommentsOfItem(field: Field, blockTime: string): seq<Comment> {
    if field.number != 2 || field.bytes == [] then []
    else
      match ParseFrom(field.bytes, 0)
      case Bad(_) => []
      case Fields(item) =>
        if FirstValue(item, 2) == "" then []
        else [Comment(FirstValue(item, 2), if FirstValue(item, 6) == "" then blockTime else FirstValue(item, 6))]
  }

  ghost function ItemReader(blockTime: string): Field -> seq<Comment> {
    field => CommentsOfItem(field, blockTime)
  }

  ghost function CommentsOfBlock(block: seq<Field>, blockTime: string): seq<Comment> {
    Collect(ItemReader(blockTime), block)
  }

  ghost function CommentsOfField(field: Field): seq<Comment> {
    if field.number != 6 || field.bytes == [] then []
    else
      match ParseFrom(field.bytes, 0)
      case Bad(_) => []
      case Fields(block) => CommentsOfBlock(block, FirstValue(block, 1))
  }

  ghost function CommentsOf(fields: seq<Field>): seq<Comment> {
    Collect(CommentsOfField, fields)
  }

  /** Blocks that are empty, of another number or cannot be read leave the comments of all others as they are, and
      so do items within a block, also items without a content. */
  lemma UnreadableSkipped(before: seq<Field>, bad: Field, after: seq<Field>, blockTime: string)
    ensures bad.number != 6 || bad.bytes == [] || ParseFrom(bad.bytes, 0).Bad? ==>
              CommentsOf(before + [bad] + after) == CommentsOf(before + after)
    ensures bad.number != 2 || bad.bytes == [] || ParseFrom(bad.bytes, 0).Bad?
            || FirstValue(ParseFrom(bad.bytes, 0).list, 2) == "" ==>
              CommentsOfBlock(before + [bad] + after, blockTime) == CommentsOfBlock(before + after, blockTime)
  {
    hide Collect, ParseFrom;
    if CommentsOfField(bad) == [] {
      CollectAround(CommentsOfField, before, bad, after);
    }
    if CommentsOfItem(bad, blockTime) == [] {
      CollectAround(ItemReader(blockTime), before, bad, after);
    }
  }

  /** The contents and times of one block, in two lists. */
  method ReadBlock(block: seq<Field>, blockTime: string) returns (contents: seq<string>, times: seq<string>)
    ensures |contents| == |times| && Paired(contents, times) == CommentsOfBlock(block, blockTime)
  {
    contents, times := [], [];
    for n := 0 to |block|
      invariant |contents| == |times| && Paired(contents, times) == CommentsOfBlock(block[..n], blockTime)
    {
      var itemField := block[n];
      CollectNext(ItemReader(blockTime), block, n);
      if itemField.number != 2 || itemField.bytes == [] {
        continue;
      }
      var item := ParseIqiyiProtoFields(itemField.bytes);
      if item.Bad? {
        continue;
      }
      var content := IqiyiProtoString(item.list, 2);
      if content == "" {
        continue;
      }
      var showTime := IqiyiProtoString(item.list, 6);
      if showTime == "" {
        showTime := blockTime;
      }
      PairedAppend(contents, times, [content], [showTime]);
      assert Paired([content], [showTime]) == [Comment(content, showTime)];
      contents, times := contents + [content], times + [showTime];
    }
    assert block[..|block|] == block;
  }

  /** Libraries: the parsing of floats, which may fail, and the decoding of HTML entities. */
  datatype Readers = Readers(parseFloat: string -> Option<Seconds>, unescape: string -> string)

  /** The record of a comment, if it has a content and its time is a finite number. */
  ghost function Shown(readers: Readers, now: int, decodeHTML: bool, comment: Comment): seq<DanmakuData> {
    var showTime := readers.parseFloat(TrimSpace(comment.time));
    if comment.content == "" || showTime.None? || !showTime.value.Finite? then []
    else
      var text := if decodeHTML then readers.unescape(comment.content) else comment.content;
      [DanmakuData(showTime.value, 1, 25, 16777215, now, 0, "", 0, Some(text))]
  }

  ghost function Shower(readers: Readers, now: int, decodeHTML: bool): Comment -> seq<DanmakuData> {
    comment => Shown(readers, now, decodeHTML, comment)
  }

  /** Contents and times paired as far as both reach. */
  ghost function Paired(contents: seq<string>, times: seq<string>): seq<Comment> {
    seq(if |contents| < |times| then |contents| else |times|,
        i requires 0 <= i < |contents| && i < |times| => Comment(contents[i], times[i]))
  }

  lemma {:induction false} CollectedFrom<A, B>(parts: A -> seq<B>, s: seq<A>, x: B)
    ensures x in Collect(parts, s) ==> exists i :: 0 <= i < |s| && x in parts(s[i])
  {
    if s != [] && x in Collect(parts, s) && x !in parts(s[|s| - 1]) {
      CollectedFrom(parts, s[..|s| - 1], x);
      var i :| 0 <= i < |s| - 1 && x in parts(s[..|s| - 1][i]);
      assert x in parts(s[i]);
    }
  }

  /** A content that is shown: not empty, and its time a finite number. */
  ghost predicate Readable(readers: Readers, content: string, time: string) {
    var parsed := readers.parseFloat(TrimSpace(time));
    content != "" && parsed.Some? && parsed.value.Finite?
  }

  ghost predicate RecordOf(readers: Readers, now: int, decodeHTML: bool, content: string, time: string,
                           data: DanmakuData) {
    && Readable(readers, content, time)
    && readers.parseFloat(TrimSpace(time)) == Some(data.time)
    && data.mode == 1 && data.color == 16777215 && data.size == 25 && data.timestamp == now
    && data.pool == 0 && data.author == "" && data.authorID == 0
    && data.text == Some(if decodeHTML then readers.unescape(content) else content)
  }

  lemma ShownMeaning(readers: Readers, now: int, decodeHTML: bool, comment: Comment)
    ensures var shown := Shown(readers, now, decodeHTML, comment);
            if Readable(readers, comment.content, comment.time)
            then |shown| == 1 && RecordOf(readers, now, decodeHTML, comment.content, comment.time, shown[0])
            else shown == []
  {
  }

  /** Every record is that of some content. */
  lemma RecordsAreOf(readers: Readers, now: int, decodeHTML: bool, pairs: seq<Comment>, data: DanmakuData)
    requires data in Collect(Shower(readers, now, decodeHTML), pairs)
    ensures exists i | 0 <= i < |pairs| :: RecordOf(readers, now, decodeHTML, pairs[i].content, pairs[i].time, data)
  {
    CollectedFrom(Shower(readers, now, decodeHTML), pairs, data);
    var i :| 0 <= i < |pairs| && data in Shower(readers, now, decodeHTML)(pairs[i]);
    ShownMeaning(readers, now, decodeHTML, pairs[i]);
  }

  /** When every content is readable there is one record for each, in order. */
  lemma {:induction false} RecordsComplete(readers: Readers, now: int, decodeHTML: bool, pairs: seq<Comment>)
    requires forall i | 0 <= i < |pairs| :: Readable(readers, pairs[i].content, pairs[i].time)
    ensures var result := Collect(Shower(readers, now, decodeHTML), pairs);
            && |result| == |pairs|
            && forall i | 0 <= i < |pairs| ::
                 RecordOf(readers, now, decodeHTML, pairs[i].content, pairs[i].time, result[i])
  {
    hide Readable, RecordOf, Shown;
    if pairs != [] {
      var n := |pairs| - 1;
      RecordsComplete(readers, now, decodeHTML, pairs[..n]);
      ShownMeaning(readers, now, decodeHTML, pairs[n]);
    }
  }

  method IqiyiDanmaku(readers: Readers, now: int, contents: seq<string>, times: seq<string>, decodeHTML: bool)
    returns (result: seq<DanmakuData>)
    ensures result == Collect(Shower(readers, now, decodeHTML), Paired(contents, times))
    ensures forall data | data in result :: exists i | 0 <= i < |contents| && i < |times| ::
              RecordOf(readers, now, decodeHTML, contents[i], times[i], data)
    ensures (forall i | 0 <= i < |contents| && i < |times| :: Readable(readers, contents[i], times[i])) ==>
              && |result| == (if |contents| < |times| then |contents| else |times|)
              && forall i | 0 <= i < |result| :: RecordOf(readers, now, decodeHTML, contents[i], times[i], result[i])
  {
    hide RecordOf, Readable;
    result := ReadRecords(readers, now, contents, times, decodeHTML);
    ghost var pairs := Paired(contents, times);
    forall data | data in result
      ensures exists i | 0 <= i < |contents| && i < |times| ::
                RecordOf(readers, now, decodeHTML, contents[i], times[i], data)
    {
      RecordsAreOf(readers, now, decodeHTML, pairs, data);
      var i :| 0 <= i < |pairs| && RecordOf(readers, now, decodeHTML, pairs[i].content, pairs[i].time, data);
      assert RecordOf(readers, now, decodeHTML, contents[i], times[i], data);
    }
    if forall i | 0 <= i < |contents| && i < |times| :: Readable(readers, contents[i], times[i]) {
      RecordsComplete(readers, now, decodeHTML, pairs);
    }
  }

  /** The loop over the contents. */
  method ReadRecords(readers: Readers, now: int, contents: seq<string>, times: seq<string>, decodeHTML: bool)
    returns (result: seq<DanmakuData>)
    ensures result == Collect(Shower(readers, now, decodeHTML), Paired(contents, times))
  {
    ghost var pairs, shower := Paired(contents, times), Shower(readers, now, decodeHTML);
    result := [];
    assert Collect(shower, pairs[..0]) == [];
    assert forall comment :: shower(comment) == Shown(readers, now, decodeHTML, comment);
    hide Collect, Shown, Paired, Shower;
    PairedMeaning(contents, times);
    ghost var read := 0;
    for index := 0 to |contents|
      invariant read == (if index < |times| then index else |times|) && read <= |pairs|
      invariant result == Collect(shower, pairs[..read])
    {
      if index >= |times| {
        continue;
      }
      CollectNext(shower, pairs, index);
      var shown := ReadRecord(readers, now, contents[index], times[index], decodeHTML);
      result, read := result + shown, read + 1;
    }
    assert pairs[..|pairs|] == pairs;
  }

  lemma PairedMeaning(contents: seq<string>, times: seq<string>)
    ensures var pairs := Paired(contents, times);
            && |pairs| == (if |contents| < |times| then |contents| else |times|)
            && forall i | 0 <= i < |pairs| :: pairs[i] == Comment(contents[i], times[i])
  {
  }

  /** One turn of the loop: the record, or nothing where the loop continues early. */
  method ReadRecord(readers: Readers, now: int, content: string, time: string, decodeHTML: bool)
    returns (shown: seq<DanmakuData>)
    ensures shown == Shown(readers, now, decodeHTML, Comment(content, time))
  {
    hide TrimSpace;
    if content == "" {
      return [];
    }
    var showTime := readers.parseFloat(TrimSpace(time));
    if showTime.None? || !showTime.value.Finite? {
      return [];
    }
    var text := content;
    if decodeHTML {
      text := readers.unescape(content);
    }
    var data := DanmakuData(Finite(0.0), 0, 25, 0, now, 0, "", 0, Some(""));
    data := data.(time := showTime.value);
    data := data.(mode := 1);
    data := data.(color := 16777215);
    data := data.(text := Some(text));
    return [data];
  }

  /** The comments of a document. A block or item that cannot be read is skipped, the document itself must be
      readable. */
  method ParseIqiyiProto(readers: Readers, now: int, raw: seq<Byte>) returns (document: Fields, data: seq<DanmakuData>)
    ensures document == ParseFrom(raw, 0)
    ensures data == if document.Bad? then [] else Collect(Shower(readers, now, true), CommentsOf(document.list))
  {
    document := ParseIqiyiProtoFields(raw);
    data := [];
    if document.Bad? {
      return;
    }
    var fields := document.list;
    var contents: seq<string>, times: seq<string> := [], [];
    ghost var comments: seq<Comment> := [];
    for n := 0 to |fields|
      invariant comments == CommentsOf(fields[..n])
      invariant |contents| == |times| && Paired(contents, times) == comments
    {
      CollectNext(CommentsOfField, fields, n);
      if fields[n].number != 6 || fields[n].bytes == [] {
        continue;
      }
      var block := ParseIqiyiProtoFields(fields[n].bytes);
      if block.Bad? {
        continue;
      }
      var blockTime := IqiyiProtoString(block.list, 1);
      var moreContents, moreTimes := ReadBlock(block.list, blockTime);
      PairedAppend(contents, times, moreContents, moreTimes);
      contents, times := contents + moreContents, times + moreTimes;
      comments := comments + CommentsOfField(fields[n]);
    }
    assert fields[..|fields|] == fields;
    data := IqiyiDanmaku(readers, now, contents, times, true);
  }

  lemma PairedAppend(contents: seq<string>, times: seq<string>, moreContents: seq<string>, moreTimes: seq<string>)
    requires |contents| == |times|
    ensures Paired(contents + moreContents, times + moreTimes)
         == Paired(contents, times) + Paired(moreContents, moreTimes)
  {
  }

  // A writer of such documents, to compare with.

  datatype Item = Item(content: seq<Byte>, showTime: seq<Byte>)
  datatype Block = Block(time: seq<Byte>, items: seq<Item>)

  ghost function ItemFields(item: Item): seq<Out> {
    [Bytes(2, item.content), Bytes(6, item.showTime)]
  }

  ghost function BlockFields(block: Block): seq<Out> {
    [Bytes(1, block.time)] + ItemsFields(block.items)
  }

  ghost function ItemsFields(items: seq<Item>): seq<Out> {
    seq(|items|, i requires 0 <= i < |items| => Bytes(2, WriteAll(ItemFields(items[i]))))
  }

  ghost function DocumentFields(blocks: seq<Block>): seq<Out> {
    seq(|blocks|, i requires 0 <= i < |blocks| => Bytes(6, WriteAll(BlockFields(blocks[i]))))
  }

  /** The comment of an item as written: empty contents are dropped, an empty time falls back. */
  ghost function WrittenComment(time: seq<Byte>, item: Item): seq<Comment> {
    if item.content == [] then []
    else [Comment(AsString(item.content), AsString(if item.showTime == [] then time else item.showTime))]
  }

  ghost function ItemWriter(time: seq<Byte>): Item -> seq<Comment> {
    item => WrittenComment(time, item)
  }

  ghost function WrittenBlock(block: Block): seq<Comment> {
    Collect(ItemWriter(block.time), block.items)
  }

  ghost function WrittenDocument(blocks: seq<Block>): seq<Comment> {
    Collect(WrittenBlock, blocks)
  }

  ghost predicate ItemFits(item: Item) {
    |item.content| < MAX_LENGTH && |item.showTime| < MAX_LENGTH && |WriteAll(ItemFields(item))| < MAX_LENGTH
  }

  ghost predicate BlockFits(block: Block) {
    && |block.time| < MAX_LENGTH && |WriteAll(BlockFields(block))| < MAX_LENGTH
    && forall item | item in block.items :: ItemFits(item)
  }

  lemma ItemRoundTrip(item: Item, time: seq<Byte>)
    requires ItemFits(item)
    ensures CommentsOfItem(ReadBack(Bytes(2, WriteAll(ItemFields(item)))), AsString(time)) == WrittenComment(time, item)
  {
    var outs := ItemFields(item);
    FieldsRoundTrip(outs);
    var read := ReadBackAll(outs);
    assert read == [ReadBack(outs[0]), ReadBack(outs[1])];
    assert read[1..] == [ReadBack(outs[1])];
    assert FirstValue(read, 2) == AsString(item.content);
    assert FirstValue(read, 6) == AsString(item.showTime);
    WriteAllNonEmpty(outs);
  }

  lemma WriteAllNonEmpty(outs: seq<Out>)
    requires outs != []
    ensures WriteAll(outs) != []
  {
  }

  lemma ItemsRoundTrip(block: Block)
    requires forall item | item in block.items :: ItemFits(item)
    ensures CommentsOfBlock(ReadBackAll(BlockFields(block)), AsString(block.time)) == WrittenBlock(block)
  {
    var first, rest := ReadBack(Bytes(1, block.time)), ReadBackAll(ItemsFields(block.items));
    var reader := ItemReader(AsString(block.time));
    assert ReadBackAll(BlockFields(block)) == [first] + rest;
    CollectFirst(reader, first, rest);
    forall i | 0 <= i < |rest|
      ensures reader(rest[i]) == ItemWriter(block.time)(block.items[i])
    {
      ItemRoundTrip(block.items[i], block.time);
    }
    SameCollection(reader, rest, ItemWriter(block.time), block.items);
  }

  lemma BlockWritable(block: Block)
    requires BlockFits(block)
    ensures forall out | out in BlockFields(block) :: Writable(out)
  {
    forall out | out in ItemsFields(block.items)
      ensures Writable(out)
    {
      var i :| 0 <= i < |block.items| && out == ItemsFields(block.items)[i];
      assert ItemFits(block.items[i]);
    }
  }

  /** A readable block stands for its items. */
  lemma BlockField(raw: seq<Byte>, block: seq<Field>)
    requires raw != [] && ParseFrom(raw, 0) == Fields(block)
    ensures CommentsOfField(ReadBack(Bytes(6, raw))) == CommentsOfBlock(block, FirstValue(block, 1))
  {
  }

  lemma BlockRoundTrip(block: Block)
    requires BlockFits(block)
    ensures CommentsOfField(ReadBack(Bytes(6, WriteAll(BlockFields(block))))) == WrittenBlock(block)
  {
    var outs := BlockFields(block);
    BlockWritable(block);
    FieldsRoundTrip(outs);
    WriteAllNonEmpty(outs);
    BlockField(WriteAll(outs), ReadBackAll(outs));
    assert ReadBackAll(outs)[0] == ReadBack(Bytes(1, block.time));
    ItemsRoundTrip(block);
  }

  lemma BlocksRoundTrip(blocks: seq<Block>)
    requires forall block | block in blocks :: BlockFits(block)
    ensures CommentsOf(ReadBackAll(DocumentFields(blocks))) == WrittenDocument(blocks)
  {
    var read := ReadBackAll(DocumentFields(blocks));
    forall i | 0 <= i < |read|
      ensures CommentsOfField(read[i]) == WrittenBlock(blocks[i])
    {
      BlockRoundTrip(blocks[i]);
    }
    SameCollection(CommentsOfField, read, WrittenBlock, blocks);
  }

  /** Reading a written document returns its comments in order, through both levels of nesting. */
  lemma DocumentRoundTrip(blocks: seq<Block>)
    requires forall block | block in blocks :: BlockFits(block)
    ensures var document := ParseFrom(WriteAll(DocumentFields(blocks)), 0);
            document.Fields? && CommentsOf(document.list) == WrittenDocument(blocks)
  {
    forall out | out in DocumentFields(blocks)
      ensures Writable(out)
    {
      var i :| 0 <= i < |blocks| && out == DocumentFields(blocks)[i];
      assert BlockFits(blocks[i]);
    }
    FieldsRoundTrip(DocumentFields(blocks));
    BlocksRoundTrip(blocks);
  }

  /** What a reader of a written block shows: one record for each item, in order, when all can be shown. */
  lemma BlockRecords(readers: Readers, now: int, block: Block)
    requires BlockFits(block)
    requires forall item | item in block.items ::
               Readable(readers, AsString(item.content),
                        AsString(if item.showTime == [] then block.time else item.showTime))
    ensures var field := ReadBack(Bytes(6, WriteAll(BlockFields(block))));
            var data := Collect(Shower(readers, now, true), CommentsOfField(field));
            && |data| == |block.items|
            && forall i | 0 <= i < |data| ::
                 var item := block.items[i];
                 RecordOf(readers, now, true, AsString(item.content),
                          AsString(if item.showTime == [] then block.time else item.showTime), data[i])
  {
    BlockRoundTrip(block);
    hide WriteAll, BlockFields, RecordOf, TrimSpace, CommentsOfField, BlockFits;
    var comments := seq(|block.items|, i requires 0 <= i < |block.items| =>
      var item := block.items[i];
      Comment(AsString(item.content), AsString(if item.showTime == [] then block.time else item.showTime)));
    forall i | 0 <= i < |comments|
      ensures ItemWriter(block.time)(block.items[i]) == [comments[i]]
      ensures Readable(readers, comments[i].content, comments[i].time)
    {
      assert block.items[i] in block.items;
      assert AsString([]) == "";
    }
    CollectSingles(ItemWriter(block.time), block.items, comments);
    RecordsComplete(readers, now, true, comments);
  }
}
