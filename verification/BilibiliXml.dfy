/** The bilibili XML parameter strings: written by internal/api/public.go, read by internal/api/bilibili.go.
    XML itself, and the printing and parsing of floats, belong to libraries and are parameters. */
module BilibiliXml {
  import opened Domain
  import opened Decimal
  import opened Collecting

  datatype FloatText = FloatText(format: Seconds -> string, parse: string -> Seconds)

  datatype Entry = Entry(parameters: string, text: string)

  // ----- split and join -----

  function Join(parts: seq<string>): string {
    if parts == [] then ""
    else if |parts| == 1 then parts[0]
    else parts[0] + "," + Join(parts[1..])
  }

  /** The part that ends at the first comma at or after i. */
  function Split(s: string, i: nat): (parts: seq<string>)
    requires i <= |s|
    ensures parts != []
    decreases |s| - i
  {
    if i == |s| then [s]
    else if s[i] == ',' then [s[..i]] + Split(s[i + 1..], 0)
    else Split(s, i + 1)
  }

  lemma {:induction false} SplitFirst(part: string, rest: string, i: nat)
    requires ',' !in part && i <= |part|
    ensures Split(part + "," + rest, i) == [part] + Split(rest, 0)
    decreases |part| - i
  {
    var s := part + "," + rest;
    if i < |part| {
      assert s[i] == part[i];
      SplitFirst(part, rest, i + 1);
    } else {
      assert s[i] == ',' && s[..i] == part && s[i + 1..] == rest;
    }
  }

  lemma {:induction false} SplitLast(part: string, i: nat)
    requires ',' !in part && i <= |part|
    ensures Split(part, i) == [part]
    decreases |part| - i
  {
    if i < |part| {
      SplitLast(part, i + 1);
    }
  }

  /** Splitting inverts joining exactly for parts without commas. */
  lemma {:induction false} SplitJoin(parts: seq<string>)
    requires parts != []
    requires forall part | part in parts :: ',' !in part
    ensures Split(Join(parts), 0) == parts
  {
    if |parts| == 1 {
      SplitLast(parts[0], 0);
    } else {
      SplitFirst(parts[0], Join(parts[1..]), 0);
      SplitJoin(parts[1..]);
    }
  }

  /** The parts of any text hold no comma and join to the text again. */
  lemma {:induction false} JoinSplit(s: string, i: nat)
    requires i <= |s| && ',' !in s[..i]
    ensures Join(Split(s, i)) == s && forall part | part in Split(s, i) :: ',' !in part
    decreases |s| - i
  {
    if i == |s| {
      assert s[..i] == s;
    } else if s[i] == ',' {
      JoinSplit(s[i + 1..], 0);
      assert s == s[..i] + "," + s[i + 1..];
      assert Split(s, i)[1..] == Split(s[i + 1..], 0);
    } else {
      assert s[..i + 1] == s[..i] + [s[i]];
      JoinSplit(s, i + 1);
    }
  }

  /** Whatever stands before, the last part is what follows the last comma. */
  lemma {:induction false} SplitEnds(s: string, last: string, i: nat)
    requires i <= |s| && ',' !in last
    ensures var parts := Split(s + "," + last, i); parts[|parts| - 1] == last
    decreases |s| - i
  {
    var t := s + "," + last;
    if i == |s| {
      assert t[i] == ',' && t[i + 1..] == last;
      SplitLast(last, 0);
    } else if s[i] == ',' {
      assert t[i] == ',' && t[i + 1..] == s[i + 1..] + "," + last;
      SplitEnds(s[i + 1..], last, 0);
    } else {
      assert t[i] == s[i];
      SplitEnds(s, last, i + 1);
    }
  }

  lemma JoinPair(part: string, rest: seq<string>)
    requires rest != []
    ensures Join([part] + rest) == part + "," + Join(rest)
  {
    assert ([part] + rest)[1..] == rest;
  }

  // ----- the program -----

  function Parameters(floats: FloatText, item: DanmakuData): seq<string> {
    [ floats.format(item.time), FormatInt(item.mode), FormatInt(item.size), FormatInt(item.color),
      FormatInt(item.timestamp), FormatInt(item.pool), item.author, FormatInt(item.timestamp) ]
  }

  function Written(floats: FloatText, item: DanmakuData): Entry {
    Entry(Join(Parameters(floats, item)), PointerValue(item.text))
  }

  ghost function WrittenAll(floats: FloatText, data: seq<DanmakuData>): seq<Entry> {
    seq(|data|, i requires 0 <= i < |data| => Written(floats, data[i]))
  }

  /** The eight parts between commas, one after the other. */
  lemma WrittenText(floats: FloatText, item: DanmakuData)
    ensures Written(floats, item).parameters ==
              floats.format(item.time) + "," + FormatInt(item.mode) + "," + FormatInt(item.size) + ","
              + FormatInt(item.color) + "," + FormatInt(item.timestamp) + "," + FormatInt(item.pool) + ","
              + item.author + "," + FormatInt(item.timestamp)
  {
    hide FormatInt, Join;
    var t := FormatInt(item.timestamp);
    JoinEight(floats.format(item.time), FormatInt(item.mode), FormatInt(item.size), FormatInt(item.color), t,
              FormatInt(item.pool), item.author, t);
    assert Parameters(floats, item) ==
           [floats.format(item.time)] + ([FormatInt(item.mode)] + ([FormatInt(item.size)] + ([FormatInt(item.color)]
           + ([t] + ([FormatInt(item.pool)] + ([item.author] + [t]))))));
  }

  lemma JoinEight(a: string, b: string, c: string, d: string, e: string, f: string, g: string, h: string)
    ensures Join([a] + ([b] + ([c] + ([d] + ([e] + ([f] + ([g] + [h]))))))) ==
              a + "," + b + "," + c + "," + d + "," + e + "," + f + "," + g + "," + h
  {
    assert Join([h]) == h;
    hide Join;
    JoinPair(g, [h]);
    JoinPair(f, [g] + [h]);
    JoinPair(e, [f] + ([g] + [h]));
    JoinPair(d, [e] + ([f] + ([g] + [h])));
    JoinPair(c, [d] + ([e] + ([f] + ([g] + [h]))));
    JoinPair(b, [c] + ([d] + ([e] + ([f] + ([g] + [h])))));
    JoinPair(a, [b] + ([c] + ([d] + ([e] + ([f] + ([g] + [h]))))));
  }

  method WriteXML(floats: FloatText, data: seq<DanmakuData>) returns (entries: seq<Entry>)
    ensures entries == WrittenAll(floats, data)
    ensures |entries| == |data|
    ensures forall i | 0 <= i < |data| ::
              && entries[i].text == PointerValue(data[i].text)
              && entries[i].parameters ==
                   floats.format(data[i].time) + "," + FormatInt(data[i].mode) + "," + FormatInt(data[i].size) + ","
                   + FormatInt(data[i].color) + "," + FormatInt(data[i].timestamp) + "," + FormatInt(data[i].pool)
                   + "," + data[i].author + "," + FormatInt(data[i].timestamp)
  {
    entries := [];
    for n := 0 to |data|
      invariant entries == seq(n, i requires 0 <= i < n => Written(floats, data[i]))
    {
      var text := "";
      if data[n].text.Some? {
        text := data[n].text.value;
      }
      entries := entries + [Entry(Join(Parameters(floats, data[n])), text)];
    }
    forall i | 0 <= i < |data|
      ensures entries[i].parameters ==
                floats.format(data[i].time) + "," + FormatInt(data[i].mode) + "," + FormatInt(data[i].size) + ","
                + FormatInt(data[i].color) + "," + FormatInt(data[i].timestamp) + "," + FormatInt(data[i].pool)
                + "," + data[i].author + "," + FormatInt(data[i].timestamp)
    {
      WrittenText(floats, data[i]);
    }
  }

  ghost function ReadEntry(floats: FloatText, entry: Entry): seq<DanmakuData> {
    var parts := Split(entry.parameters, 0);
    if |parts| < 7 then []
    else [DanmakuData(floats.parse(parts[0]), ParseInt(parts[1]), ParseInt(parts[2]), ParseInt(parts[3]),
                      ParseInt(parts[4]), ParseInt(parts[5]), parts[6], 0, Some(entry.text))]
  }

  ghost function Reader(floats: FloatText): Entry -> seq<DanmakuData> {
    entry => ReadEntry(floats, entry)
  }

  ghost function ReadAll(floats: FloatText, entries: seq<Entry>): seq<DanmakuData> {
    Collect(Reader(floats), entries)
  }

  /** An entry of at least seven parts gives one record of them, any other gives none. */
  lemma ReadNext(floats: FloatText, entries: seq<Entry>, entry: Entry)
    ensures var parts := Split(entry.parameters, 0);
            ReadAll(floats, entries + [entry]) ==
              ReadAll(floats, entries)
              + if |parts| < 7 then []
                else [DanmakuData(floats.parse(parts[0]), ParseInt(parts[1]), ParseInt(parts[2]), ParseInt(parts[3]),
                                  ParseInt(parts[4]), ParseInt(parts[5]), parts[6], 0, Some(entry.text))]
  {
    assert (entries + [entry])[..|entries|] == entries;
  }

  /** Fills a record field by field; entries with too few parts are skipped. */
  method ParseBilibiliXML(floats: FloatText, entries: seq<Entry>, now: int) returns (result: seq<DanmakuData>)
    ensures result == ReadAll(floats, entries)
    ensures (forall i | 0 <= i < |entries| :: |Split(entries[i].parameters, 0)| >= 7) ==>
              && |result| == |entries|
              && forall i | 0 <= i < |entries| ::
                   var parts := Split(entries[i].parameters, 0);
                   result[i] == DanmakuData(floats.parse(parts[0]), ParseInt(parts[1]), ParseInt(parts[2]),
                                            ParseInt(parts[3]), ParseInt(parts[4]), ParseInt(parts[5]), parts[6], 0,
                                            Some(entries[i].text))
  {
    hide Split, ParseInt;
    result := [];
    for n := 0 to |entries|
      invariant result == ReadAll(floats, entries[..n])
      invariant (forall i | 0 <= i < n :: |Split(entries[i].parameters, 0)| >= 7) ==>
                  && |result| == n
                  && forall i | 0 <= i < n ::
                       var parts := Split(entries[i].parameters, 0);
                       result[i] == DanmakuData(floats.parse(parts[0]), ParseInt(parts[1]), ParseInt(parts[2]),
                                                ParseInt(parts[3]), ParseInt(parts[4]), ParseInt(parts[5]), parts[6],
                                                0, Some(entries[i].text))
    {
      CollectNext(Reader(floats), entries, n);
      var parts := Split(entries[n].parameters, 0);
      if |parts| < 7 {
        continue;
      }
      var data := DanmakuData(Finite(0.0), 0, 25, 0, now, 0, "", 0, Some(""));
      data := data.(time := floats.parse(parts[0]));
      data := data.(mode := ParseInt(parts[1]));
      data := data.(size := ParseInt(parts[2]));
      data := data.(color := ParseInt(parts[3]));
      data := data.(timestamp := ParseInt(parts[4]));
      data := data.(pool := ParseInt(parts[5]));
      data := data.(author := parts[6]);
      data := data.(text := Some(entries[n].text));
      result := result + [data];
    }
    assert entries[..|entries|] == entries;
  }

  // ----- laws -----

  /** What shortest printing of a float32 promises of each value: parsing inverts it, and it holds no comma. */
  predicate TimeRoundTrips(floats: FloatText, t: Seconds) {
    ',' !in floats.format(t) && floats.parse(floats.format(t)) == t
  }

  predicate Is64Bit(x: int) {
    MIN_INT64 <= x <= MAX_INT64
  }

  /** The fields are values of the types the program gives them. */
  predicate FieldsAre64Bit(item: DanmakuData) {
    Is64Bit(item.mode) && Is64Bit(item.size) && Is64Bit(item.color) && Is64Bit(item.timestamp) && Is64Bit(item.pool)
  }

  /** What the format keeps of an item: no numeric author, and a text even where there was none. */
  function Normalized(item: DanmakuData): DanmakuData {
    item.(authorID := 0, text := Some(PointerValue(item.text)))
  }

  function ReadBack(item: DanmakuData): DanmakuData {
    Normalized(item).(author := UpToComma(item.author))
  }

  /** The author up to the first comma. */
  function UpToComma(author: string): string {
    if author == "" || author[0] == ',' then "" else [author[0]] + UpToComma(author[1..])
  }

  /** What the first comma begins. */
  function FromComma(author: string): string {
    if author == "" || author[0] == ',' then author else FromComma(author[1..])
  }

  lemma {:induction false} UpToCommaConcat(author: string)
    ensures author == UpToComma(author) + FromComma(author)
  {
    if author != "" && author[0] != ',' {
      var first, rest := [author[0]], author[1..];
      assert author == first + rest;
      assert UpToComma(author) == first + UpToComma(rest) && FromComma(author) == FromComma(rest);
      hide UpToComma, FromComma;
      UpToCommaConcat(rest);
      assert first + (UpToComma(rest) + FromComma(rest)) == first + UpToComma(rest) + FromComma(rest);
    }
  }

  lemma {:induction false} UpToCommaClean(author: string)
    ensures ',' !in UpToComma(author)
  {
    if author != "" && author[0] != ',' {
      assert UpToComma(author) == [author[0]] + UpToComma(author[1..]);
      hide UpToComma;
      UpToCommaClean(author[1..]);
    }
  }

  lemma {:induction false} FromCommaStarts(author: string)
    ensures FromComma(author) == "" || FromComma(author)[0] == ','
  {
    if author != "" && author[0] != ',' {
      FromCommaStarts(author[1..]);
    }
  }

  /** An author is its part without commas and what the first comma begins. */
  lemma UpToCommaSplits(author: string)
    ensures author == UpToComma(author) + FromComma(author)
    ensures ',' !in UpToComma(author)
    ensures FromComma(author) == "" || FromComma(author)[0] == ','
  {
    UpToCommaConcat(author);
    UpToCommaClean(author);
    FromCommaStarts(author);
  }

  lemma UpToCommaIsWhole(author: string)
    ensures UpToComma(author) == author <==> ',' !in author
  {
    UpToCommaSplits(author);
    hide UpToComma, FromComma;
    if FromComma(author) == "" {
      assert UpToComma(author) + "" == UpToComma(author);
    } else {
      assert author[|UpToComma(author)|] == ',';
    }
  }

  lemma {:induction false} JoinPrefix(parts: seq<string>, last: string)
    requires parts != []
    ensures Join(parts + [last]) == Join(parts) + "," + last
  {
    if |parts| > 1 {
      JoinPrefix(parts[1..], last);
      assert (parts + [last])[1..] == parts[1..] + [last];
    }
  }

  lemma {:induction false} SplitPrefix(parts: seq<string>, rest: string)
    requires parts != [] && forall part | part in parts :: ',' !in part
    ensures Split(Join(parts) + "," + rest, 0) == parts + Split(rest, 0)
  {
    if |parts| == 1 {
      SplitFirst(parts[0], rest, 0);
    } else {
      SplitPrefix(parts[1..], rest);
      var tail := Join(parts[1..]) + "," + rest;
      assert Join(parts) + "," + rest == parts[0] + "," + tail;
      SplitFirst(parts[0], tail, 0);
    }
  }

  lemma NumbersHaveNoComma(item: DanmakuData)
    ensures ',' !in FormatInt(item.mode) && ',' !in FormatInt(item.size) && ',' !in FormatInt(item.color)
    ensures ',' !in FormatInt(item.timestamp) && ',' !in FormatInt(item.pool)
  {
  }

  lemma AuthorPart(author: string, last: string)
    ensures Split(author + "," + last, 0)[0] == UpToComma(author)
  {
    UpToCommaSplits(author);
    var from := FromComma(author);
    if from == "" {
      SplitFirst(author, last, 0);
    } else {
      assert author + "," + last == UpToComma(author) + "," + (from[1..] + "," + last);
      SplitFirst(UpToComma(author), from[1..] + "," + last, 0);
    }
  }

  /** The first six parts come back whole, and the seventh is the author up to its first comma. */
  lemma WrittenParts(floats: FloatText, item: DanmakuData)
    requires TimeRoundTrips(floats, item.time)
    ensures var parts := Split(Written(floats, item).parameters, 0);
            && |parts| >= 7
            && parts[..6] == Parameters(floats, item)[..6]
            && parts[6] == UpToComma(item.author)
            && parts[|parts| - 1] == FormatInt(item.timestamp)
  {
    var all := Parameters(floats, item);
    var head := all[..6];
    NumbersHaveNoComma(item);
    JoinPrefix(all[..7], all[7]);
    JoinPrefix(head, item.author);
    assert all[..7] + [all[7]] == all && head + [item.author] == all[..7];
    assert Join(all) == Join(head) + "," + (item.author + "," + all[7]);
    SplitPrefix(head, item.author + "," + all[7]);
    AuthorPart(item.author, all[7]);
    SplitEnds(Join(all[..7]), all[7], 0);
  }

  lemma EntryRoundTrip(floats: FloatText, item: DanmakuData)
    requires TimeRoundTrips(floats, item.time) && FieldsAre64Bit(item)
    ensures ReadEntry(floats, Written(floats, item)) == [ReadBack(item)]
  {
    WrittenParts(floats, item);
    ParseFormatInt(item.mode);
    ParseFormatInt(item.size);
    ParseFormatInt(item.color);
    ParseFormatInt(item.timestamp);
    ParseFormatInt(item.pool);
    var parts := Split(Written(floats, item).parameters, 0);
    var six := parts[..6];
    assert parts[0] == six[0] && parts[1] == six[1] && parts[2] == six[2];
    assert parts[3] == six[3] && parts[4] == six[4] && parts[5] == six[5];
  }

  ghost function ReadBackAll(data: seq<DanmakuData>): seq<DanmakuData> {
    seq(|data|, i requires 0 <= i < |data| => ReadBack(data[i]))
  }

  /** Reading the written parameters returns every item, in order; an author is cut at its first comma. */
  lemma XmlRoundTrip(floats: FloatText, data: seq<DanmakuData>)
    requires forall item | item in data :: TimeRoundTrips(floats, item.time) && FieldsAre64Bit(item)
    ensures ReadAll(floats, WrittenAll(floats, data)) == ReadBackAll(data)
  {
    var entries, read := WrittenAll(floats, data), ReadBackAll(data);
    forall i | 0 <= i < |data|
      ensures ReadEntry(floats, entries[i]) == [read[i]]
    {
      EntryRoundTrip(floats, data[i]);
    }
    CollectSingles(Reader(floats), entries, read);
  }

  /** So the format loses nothing but its two normalizations exactly when no author holds a comma. */
  lemma LosslessWithoutCommas(floats: FloatText, data: seq<DanmakuData>)
    requires forall item | item in data :: TimeRoundTrips(floats, item.time) && FieldsAre64Bit(item)
    ensures ReadAll(floats, WrittenAll(floats, data)) == seq(|data|, i requires 0 <= i < |data| => Normalized(data[i]))
            <==> forall item | item in data :: ',' !in item.author
  {
    XmlRoundTrip(floats, data);
    var read := ReadAll(floats, WrittenAll(floats, data));
    forall i | 0 <= i < |data|
      ensures read[i] == Normalized(data[i]) <==> ',' !in data[i].author
    {
      UpToCommaIsWhole(data[i].author);
    }
    if read == seq(|data|, i requires 0 <= i < |data| => Normalized(data[i])) {
      forall item | item in data
        ensures ',' !in item.author
      {
        var i :| 0 <= i < |data| && data[i] == item;
        assert read[i] == Normalized(data[i]);
      }
    }
  }
}
