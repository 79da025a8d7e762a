/** The conversions between numeric and text video ids: internal/domain/bilibili_id.go.
    A string holds one character per byte. */
module BilibiliId {
  import opened Bits
  import opened Text

  type Int64 = x: int | -0x8000_0000_0000_0000 <= x < 0x8000_0000_0000_0000

  const XOR_CODE: nat := 23442827791579
  const MASK: nat := 2251799813685247
  const MAX_AID: nat := MASK + 1
  const BASE: nat := 58

  /** The digit of value d. */
  function Symbol(d: nat): char
    requires d < 58
  {
    match d
    case 0 => 'F' case 1 => 'c' case 2 => 'w' case 3 => 'A' case 4 => 'P' case 5 => 'N' case 6 => 'K'
    case 7 => 'T' case 8 => 'M' case 9 => 'u' case 10 => 'g' case 11 => '3' case 12 => 'G' case 13 => 'V'
    case 14 => '5' case 15 => 'L' case 16 => 'j' case 17 => '7' case 18 => 'E' case 19 => 'J' case 20 => 'n'
    case 21 => 'H' case 22 => 'p' case 23 => 'W' case 24 => 's' case 25 => 'x' case 26 => '4' case 27 => 't'
    case 28 => 'b' case 29 => '8' case 30 => 'h' case 31 => 'a' case 32 => 'Y' case 33 => 'e' case 34 => 'v'
    case 35 => 'i' case 36 => 'q' case 37 => 'B' case 38 => 'z' case 39 => '6' case 40 => 'r' case 41 => 'k'
    case 42 => 'C' case 43 => 'y' case 44 => '1' case 45 => '2' case 46 => 'm' case 47 => 'U' case 48 => 'S'
    case 49 => 'D' case 50 => 'Q' case 51 => 'X' case 52 => '9' case 53 => 'R' case 54 => 'd' case 55 => 'o'
    case 56 => 'Z' case _ => 'f'
  }

  /** The place of each byte of the alphabet. */
  ghost function Place(c: char): int {
    match c
    case 'F' => 0 case 'c' => 1 case 'w' => 2 case 'A' => 3 case 'P' => 4 case 'N' => 5 case 'K' => 6
    case 'T' => 7 case 'M' => 8 case 'u' => 9 case 'g' => 10 case '3' => 11 case 'G' => 12 case 'V' => 13
    case '5' => 14 case 'L' => 15 case 'j' => 16 case '7' => 17 case 'E' => 18 case 'J' => 19 case 'n' => 20
    case 'H' => 21 case 'p' => 22 case 'W' => 23 case 's' => 24 case 'x' => 25 case '4' => 26 case 't' => 27
    case 'b' => 28 case '8' => 29 case 'h' => 30 case 'a' => 31 case 'Y' => 32 case 'e' => 33 case 'v' => 34
    case 'i' => 35 case 'q' => 36 case 'B' => 37 case 'z' => 38 case '6' => 39 case 'r' => 40 case 'k' => 41
    case 'C' => 42 case 'y' => 43 case '1' => 44 case '2' => 45 case 'm' => 46 case 'U' => 47 case 'S' => 48
    case 'D' => 49 case 'Q' => 50 case 'X' => 51 case '9' => 52 case 'R' => 53 case 'd' => 54 case 'o' => 55
    case 'Z' => 56 case 'f' => 57 case _ => -1
  }

  function Alphabet(): (alphabet: string)
    ensures |alphabet| == 58
    ensures forall d | 0 <= d < 58 :: alphabet[d] == Symbol(d)
  {
    seq(58, d requires 0 <= d < 58 => Symbol(d))
  }

  lemma AlphabetSpelled()
    ensures Alphabet()[..16] == "FcwAPNKTMug3GV5L" && Alphabet()[16..32] == "j7EJnHpWsx4tb8ha"
    ensures Alphabet()[32..48] == "YeviqBz6rkCy12mU" && Alphabet()[48..] == "SDQX9RdoZf"
  {
  }

  // ----- specification -----

  predicate ValidAID(aid: int) {
    1 <= aid <= MASK
  }

  function Pow58(n: nat): (p: nat)
    ensures p > 0
  {
    if n == 0 then 1 else 58 * Pow58(n - 1)
  }

  /** The last n base-58 digits of v. */
  function Digits(v: nat, n: nat): (s: string)
    ensures |s| == n
  {
    if n == 0 then "" else Digits(v / 58, n - 1) + [Symbol(v % 58)]
  }

  function Swapped(s: string): (t: string)
    requires |s| == 12
    ensures |t| == 12
  {
    s[3 := s[9]][9 := s[3]][4 := s[7]][7 := s[4]]
  }

  function Encoded(aid: nat): nat {
    Xor(Or(MAX_AID, aid), XOR_CODE)
  }

  function BVID(aid: nat): (bvid: string)
    ensures |bvid| == 12
  {
    Swapped("BV1" + Digits(Encoded(aid), 9))
  }

  /** The first position of a byte in the alphabet, at or after i, or -1. */
  function IndexFrom(c: char, i: nat): int
    requires i <= 58
    decreases 58 - i
  {
    if i == 58 then -1 else if Symbol(i) == c then i else IndexFrom(c, i + 1)
  }

  function IndexByte(c: char): int {
    IndexFrom(c, 0)
  }

  datatype Reading = NotBase58 | Number(value: nat)

  ghost function ReadBase58(s: string): Reading {
    if s == "" then Number(0)
    else
      match ReadBase58(s[..|s| - 1])
      case NotBase58 => NotBase58
      case Number(v) =>
        var index := IndexByte(s[|s| - 1]);
        if index < 0 then NotBase58 else Number(v * 58 + index)
  }

  // ----- normalization -----

  function CanonicalBVID(bvid: string): string {
    var trimmed := TrimSpace(bvid);
    if |trimmed| == 10 && trimmed[0] == '1' then "BV" + trimmed else trimmed
  }

  // ----- facts about the numbers -----

  lemma Power51()
    ensures Pow2(51) == MAX_AID
  {
    assert Pow2(3) == 8;
    Pow2Byte(3);
    Pow2Byte(11);
    Pow2Byte(19);
    Pow2Byte(27);
    Pow2Byte(35);
    Pow2Byte(43);
  }

  lemma Power58()
    ensures Pow58(8) <= MAX_AID && 2 * MAX_AID <= Pow58(9) < 0x8000_0000_0000_0000
  {
    assert Pow58(4) == 11316496;
  }

  /** Every encoded id has exactly nine base-58 digits, and its low 51 bits hide the id. */
  lemma EncodedHasNineDigits(aid: nat)
    requires ValidAID(aid)
    ensures Encoded(aid) == MAX_AID + Xor(aid, XOR_CODE) && Xor(aid, XOR_CODE) < MAX_AID
    ensures Pow58(8) <= Encoded(aid) < Pow58(9)
  {
    Power51();
    Power58();
    MaskedXor(aid, XOR_CODE, 51);
  }

  /** Masking and undoing the exclusive or recovers the id. */
  lemma EncodedInverse(aid: nat)
    requires ValidAID(aid)
    ensures Xor(And(Encoded(aid), MASK), XOR_CODE) == aid
  {
    Power51();
    MaskedXor(aid, XOR_CODE, 51);
  }

  lemma PlaceOfDigit(d: nat)
    requires d < 58
    ensures Place(Symbol(d)) == d
  {
  }

  lemma {:induction false} IndexFromFinds(d: nat, i: nat)
    requires i <= d < 58
    ensures IndexFrom(Symbol(d), i) == d
    decreases d - i
  {
    PlaceOfDigit(i);
    PlaceOfDigit(d);
    if i < d {
      IndexFromFinds(d, i + 1);
    }
  }

  lemma {:induction false} IndexFromRange(c: char, i: nat)
    requires i <= 58
    ensures -1 <= IndexFrom(c, i) < 58
    decreases 58 - i
  {
    if i < 58 {
      IndexFromRange(c, i + 1);
    }
  }

  lemma {:induction false} DigitsReadBack(v: nat, n: nat)
    requires v < Pow58(n)
    ensures ReadBase58(Digits(v, n)) == Number(v)
  {
    if n > 0 {
      DigitsReadBack(v / 58, n - 1);
      IndexFromFinds(v % 58, 0);
      assert Digits(v, n)[..n - 1] == Digits(v / 58, n - 1);
    }
  }

  lemma {:induction false} ReadingFits(s: string)
    ensures ReadBase58(s).Number? ==> ReadBase58(s).value < Pow58(|s|)
  {
    if s != "" {
      ReadingFits(s[..|s| - 1]);
      IndexFromRange(s[|s| - 1], 0);
    }
  }

  // ----- the program -----

  method AIDToBVID(aid: Int64) returns (bvid: string, ok: bool)
    ensures ok <==> ValidAID(aid)
    ensures bvid == if ok then BVID(aid) else ""
  {
    if aid < 1 || aid > MASK {
      return "", false;
    }
    var initial := "BV1000000000";
    var result := new char[12](i requires 0 <= i < 12 => initial[i]);
    EncodedHasNineDigits(aid);
    hide Xor, Or, Digits;
    assert result[..3] == "BV1";
    FillDigits(result, Xor(Or(MAX_AID, aid), XOR_CODE));
    result[3], result[9] := result[9], result[3];
    result[4], result[7] := result[7], result[4];
    return result[..], true;
  }

  /** The loop that writes the digits backwards, over the zeros. */
  method FillDigits(result: array<char>, encoded: nat)
    requires result.Length == 12 && result[..3] == "BV1"
    requires Pow58(8) <= encoded < Pow58(9)
    modifies result
    ensures result[..] == "BV1" + Digits(encoded, 9)
  {
    hide Symbol;
    var index := 11;
    var value: nat := encoded;
    while value > 0 && index >= 3
      invariant 2 <= index <= 11
      invariant value < Pow58(index - 2)
      invariant index >= 3 ==> Pow58(index - 3) <= value
      invariant result[..3] == "BV1"
      invariant Digits(encoded, 9) == Digits(value, index - 2) + result[index + 1..]
    {
      ghost var tail := result[index + 1..];
      result[index] := Symbol(value % BASE);
      assert result[index..] == [Symbol(value % BASE)] + tail;
      value := value / BASE;
      index := index - 1;
    }
    assert index == 2 && result[..] == result[..3] + result[3..];
  }

  /** What BVIDToAID returns: the id and whether the text is its canonical form. */
  datatype Decoded = Decoded(aid: int, ok: bool)

  ghost function DecodeCanonical(bvid: string): Decoded {
    if |bvid| != 12 || bvid[..3] != "BV1" then Decoded(0, false)
    else
      match ReadBase58(Swapped(bvid)[3..])
      case NotBase58 => Decoded(0, false)
      case Number(encoded) =>
        var aid := Xor(And(encoded, MASK), XOR_CODE);
        if !ValidAID(aid) then Decoded(0, false) else Decoded(aid, BVID(aid) == bvid)
  }

  ghost function Decode(bvid: string): Decoded {
    DecodeCanonical(CanonicalBVID(bvid))
  }

  /** Every intermediate value fits an int64. */
  method BVIDToAID(bvid: string) returns (aid: Int64, ok: bool)
    ensures Decoded(aid, ok) == Decode(bvid)
  {
    hide CanonicalBVID, ReadBase58, BVID, Xor, And, ValidAID;
    var canonicalInput := CanonicalBVID(bvid);
    if |canonicalInput| != 12 || canonicalInput[..3] != "BV1" {
      return 0, false;
    }
    var value := new char[12](i requires 0 <= i < 12 => canonicalInput[i]);
    assert value[..] == canonicalInput;
    value[3], value[9] := value[9], value[3];
    value[4], value[7] := value[7], value[4];
    assert value[..] == Swapped(canonicalInput);
    var reading := ReadDigits(value[3..]);
    if reading.NotBase58? {
      return 0, false;
    }
    aid, ok := Finish(canonicalInput, reading.value);
  }

  /** The loop over the nine digits. */
  method ReadDigits(digits: string) returns (reading: Reading)
    requires |digits| == 9
    ensures reading == ReadBase58(digits)
  {
    hide IndexByte;
    var encoded: Int64 := 0;
    for n := 0 to 9
      invariant 0 <= encoded && ReadBase58(digits[..n]) == Number(encoded)
    {
      var index := IndexByte(digits[n]);
      PrefixStep(digits, n);
      if index < 0 {
        PrefixFails(digits, n + 1);
        return NotBase58;
      }
      ReadingFits(digits[..n + 1]);
      PowersGrow(n + 1, 9);
      Power58();
      encoded := encoded * BASE + index;
    }
    assert digits[..9] == digits;
    return Number(encoded);
  }

  lemma PrefixStep(text: string, n: nat)
    requires n < |text|
    ensures ReadBase58(text[..n + 1]) ==
              match ReadBase58(text[..n])
              case NotBase58 => NotBase58
              case Number(v) => if IndexByte(text[n]) < 0 then NotBase58 else Number(v * 58 + IndexByte(text[n]))
  {
    assert text[..n + 1][..n] == text[..n];
  }

  lemma {:induction false} PrefixFails(text: string, n: nat)
    requires n <= |text| && ReadBase58(text[..n]).NotBase58?
    ensures ReadBase58(text).NotBase58?
    decreases |text| - n
  {
    if n == |text| {
      assert text[..n] == text;
    } else {
      PrefixStep(text, n);
      PrefixFails(text, n + 1);
    }
  }

  lemma {:induction false} PowersGrow(m: nat, n: nat)
    requires m <= n
    ensures Pow58(m) <= Pow58(n)
  {
    if m < n {
      PowersGrow(m, n - 1);
    }
  }

  /** The statements after the digits are read. */
  method Finish(canonicalInput: string, encoded: nat) returns (aid: Int64, ok: bool)
    requires |canonicalInput| == 12 && canonicalInput[..3] == "BV1"
    requires ReadBase58(Swapped(canonicalInput)[3..]) == Number(encoded)
    ensures Decoded(aid, ok) == DecodeCanonical(canonicalInput)
  {
    var number := Xor(And(encoded, MASK), XOR_CODE);
    if number < 1 || number > MASK {
      return 0, false;
    }
    var canonical, valid := AIDToBVID(number);
    return number, valid && canonical == canonicalInput;
  }

  // ----- laws -----

  lemma SwapTwice(s: string)
    requires |s| == 12
    ensures Swapped(Swapped(s)) == s
  {
  }

  lemma BVIDReadsBack(aid: nat)
    requires ValidAID(aid)
    ensures BVID(aid)[..3] == "BV1"
    ensures ReadBase58(Swapped(BVID(aid))[3..]) == Number(Encoded(aid))
  {
    var plain := "BV1" + Digits(Encoded(aid), 9);
    SwapTwice(plain);
    assert plain[3..] == Digits(Encoded(aid), 9);
    EncodedHasNineDigits(aid);
    DigitsReadBack(Encoded(aid), 9);
  }

  /** The decoder accepts exactly the image of the encoder, and then returns the encoded id. */
  lemma AcceptsExactlyTheImage(bvid: string, aid: int)
    ensures Decode(bvid) == Decoded(aid, true) <==> ValidAID(aid) && CanonicalBVID(bvid) == BVID(aid)
  {
    if ValidAID(aid) {
      BVIDReadsBack(aid);
      EncodedInverse(aid);
    }
  }

  lemma SymbolIsNoSpace(d: nat)
    requires d < 58
    ensures Symbol(d) as int >= 0x30 && Symbol(d) as int < 0x80
  {
  }

  lemma BVIDIsCanonical(aid: nat)
    ensures CanonicalBVID(BVID(aid)) == BVID(aid)
  {
    var digits := Digits(Encoded(aid), 9);
    var plain := "BV1" + digits;
    assert BVID(aid)[0] == 'B' && BVID(aid)[11] == plain[11] == digits[8] == Symbol(Encoded(aid) % 58);
    SymbolIsNoSpace(Encoded(aid) % 58);
    NothingToTrim(BVID(aid));
  }

  /** Decoding inverts encoding on every valid id, so encoding is injective. */
  lemma RoundTrip(aid: nat, other: nat)
    requires ValidAID(aid) && ValidAID(other)
    ensures Decode(BVID(aid)) == Decoded(aid, true)
    ensures BVID(aid) == BVID(other) ==> aid == other
  {
    BVIDIsCanonical(aid);
    AcceptsExactlyTheImage(BVID(aid), aid);
    AcceptsExactlyTheImage(BVID(aid), other);
  }

  lemma TrimmedPrefix(s: string)
    requires |s| == 10 && s[0] == '1' && SpaceAtEnd(s) == 0
    ensures TrimSpace("BV" + s) == "BV" + s
  {
    var t := "BV" + s;
    VisibleStart(t);
    assert t[|t| - 1..] == s[|s| - 1..] && t[|t| - 2..] == s[|s| - 2..] && t[|t| - 3..] == s[|s| - 3..];
  }

  /** The legacy form without the constant prefix, in whatever white space, decodes as the full form does. */
  lemma LegacyForm(s: string)
    requires |TrimSpace(s)| == 10 && TrimSpace(s)[0] == '1'
    ensures Decode(s) == Decode("BV" + TrimSpace(s))
  {
    TrimRightEnds(TrimLeft(s));
    TrimmedPrefix(TrimSpace(s));
  }

  // ----- the ids themselves -----

  /** Where each of the nine digits lands. */
  lemma DigitPlaces(aid: nat)
    ensures var d := Digits(Encoded(aid), 9);
            BVID(aid) == ['B', 'V', '1', d[6], d[4], d[2], d[3], d[1], d[5], d[0], d[7], d[8]]
  {
  }
}
