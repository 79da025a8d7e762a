/** The texts of the ids in internal/domain/bilibili_id_test.go, computed byte by byte and digit by digit. */
module KnownIds {
  import opened Bits
  import opened BilibiliId
  import opened Text

  /** The number of these bytes, the lowest first. */
  ghost function Value256(bytes: seq<Quad>): nat {
    if bytes == [] then 0 else bytes[0].Value() + 256 * Value256(bytes[1..])
  }

  ghost predicate Xored(p: seq<Quad>, q: seq<Quad>, x: seq<Quad>) {
    && |p| == |q| == |x|
    && forall i | 0 <= i < |p| :: p[i].Valid() && q[i].Valid() && x[i] == XorOfQuads(p[i], q[i])
  }

  lemma {:induction false} XorOfBytes(p: seq<Quad>, q: seq<Quad>, x: seq<Quad>)
    requires Xored(p, q, x)
    ensures Xor(Value256(p), Value256(q)) == Value256(x)
  {
    hide Xor;
    if p == [] {
      XorZero(0);
    } else {
      assert p[0].Valid() && q[0].Valid() && x[0] == XorOfQuads(p[0], q[0]);
      XorQuads(p[0], q[0]);
      XorOfBytes(p[1..], q[1..], x[1..]);
      hide Xored, XorOfQuads;
      XorStep256(p[0], Value256(p[1..]), q[0], Value256(q[1..]));
    }
  }

  lemma XorStep256(p: Quad, high: nat, q: Quad, c: nat)
    requires p.Valid() && q.Valid()
    ensures Xor(p.Value() + 256 * high, q.Value() + 256 * c) == Xor(p.Value(), q.Value()) + 256 * Xor(high, c)
  {
    Pow2Byte(0);
    assert Pow2(8) == 256;
    hide Xor, Pow2;
    XorSplit(p.Value(), high, q.Value(), c, 8);
  }

  lemma Value256Seven(b: seq<Quad>)
    requires |b| == 7
    ensures Value256(b) == b[0].Value() + 0x100 * b[1].Value() + 0x1_0000 * b[2].Value() + 0x100_0000 * b[3].Value()
                           + 0x1_0000_0000 * b[4].Value() + 0x100_0000_0000 * b[5].Value()
                           + 0x1_0000_0000_0000 * b[6].Value()
  {
    assert b[6..][1..] == [] && Value256([]) == 0;
    assert Value256(b[6..]) == b[6].Value();
    assert b[5..][1..] == b[6..] && b[4..][1..] == b[5..] && b[3..][1..] == b[4..] && b[2..][1..] == b[3..];
    assert Value256(b[5..]) == b[5].Value() + 0x100 * b[6].Value();
    assert Value256(b[4..]) == b[4].Value() + 0x100 * Value256(b[5..]);
    assert Value256(b[3..]) == b[3].Value() + 0x100 * Value256(b[4..]);
    assert b[1..][1..] == b[2..];
    assert Value256(b[2..]) == b[2].Value() + 0x100 * Value256(b[3..]);
    assert Value256(b[1..]) == b[1].Value() + 0x100 * Value256(b[2..]);
  }

  /** The number of these base-58 digits, the highest first. */
  ghost function Value58(places: seq<nat>): nat {
    if places == [] then 0 else Value58(places[..|places| - 1]) * 58 + places[|places| - 1]
  }

  function Symbols(places: seq<nat>): (s: string)
    requires forall i | 0 <= i < |places| :: places[i] < 58
    ensures |s| == |places|
  {
    seq(|places|, i requires 0 <= i < |places| => Symbol(places[i]))
  }

  lemma {:induction false} DigitsOfPlaces(places: seq<nat>)
    requires forall i | 0 <= i < |places| :: places[i] < 58
    ensures Digits(Value58(places), |places|) == Symbols(places)
  {
    if places != [] {
      var front, last := places[..|places| - 1], places[|places| - 1];
      assert Value58(places) / 58 == Value58(front) && Value58(places) % 58 == last;
      assert Digits(Value58(places), |places|) == Digits(Value58(front), |front|) + [Symbol(last)];
      assert Symbols(places) == Symbols(front) + [Symbol(last)];
      hide Symbol, Symbols, Value58, Digits;
      DigitsOfPlaces(front);
    }
  }

  lemma Value58Nine(p: seq<nat>)
    requires |p| == 9
    ensures Value58(p) == p[8] + 58 * (p[7] + 58 * (p[6] + 58 * (p[5] + 58 * (p[4] + 58 * (p[3] + 58 * (p[2]
                          + 58 * (p[1] + 58 * p[0])))))))
  {
    assert p[..1][..0] == [] && Value58([]) == 0;
    assert Value58(p[..1]) == p[0];
    assert p[..2][..1] == p[..1] && p[..3][..2] == p[..2] && p[..4][..3] == p[..3] && p[..5][..4] == p[..4];
    assert Value58(p[..2]) == Value58(p[..1]) * 58 + p[1];
    assert Value58(p[..3]) == Value58(p[..2]) * 58 + p[2];
    assert Value58(p[..4]) == Value58(p[..3]) * 58 + p[3];
    assert Value58(p[..5]) == Value58(p[..4]) * 58 + p[4];
    assert p[..6][..5] == p[..5] && p[..7][..6] == p[..6] && p[..8][..7] == p[..7];
    assert Value58(p[..6]) == Value58(p[..5]) * 58 + p[5];
    assert Value58(p[..7]) == Value58(p[..6]) * 58 + p[6];
    assert Value58(p[..8]) == Value58(p[..7]) * 58 + p[7];
  }

  /** The bytes of the code. */
  ghost function Code(): (bytes: seq<Quad>)
    ensures |bytes| == 7
  {
    [Quad(3, 1, 2, 3), Quad(1, 0, 3, 0), Quad(1, 2, 3, 0), Quad(0, 3, 1, 1),
     Quad(1, 1, 0, 2), Quad(0, 1, 1, 1), Quad(0, 0, 0, 0)]
  }

  lemma CodeValue()
    ensures Value256(Code()) == 23442827791579
  {
    Value256Seven(Code());
  }

  lemma EncodedOf(aid: nat, a: seq<Quad>, x: seq<Quad>)
    requires ValidAID(aid) && Value256(a) == 2251799813685248 + aid && Xored(a, Code(), x)
    ensures Encoded(aid) == Value256(x)
  {
    hide Xor, Or, Pow2, Value256, Xored, Code;
    Power51();
    OrPower(aid, 51);
    CodeValue();
    XorOfBytes(a, Code(), x);
  }

  /** The text of an id, from the bytes of the id, those of the encoded id and the digits of the encoded id. */
  lemma TextOf(aid: nat, a: seq<Quad>, x: seq<Quad>, p: seq<nat>)
    requires ValidAID(aid) && Value256(a) == 2251799813685248 + aid && Xored(a, Code(), x)
    requires |p| == 9 && (forall i | 0 <= i < 9 :: p[i] < 58) && Value58(p) == Value256(x)
    ensures BVID(aid) == ['B', 'V', '1', Symbol(p[6]), Symbol(p[4]), Symbol(p[2]), Symbol(p[3]), Symbol(p[1]),
                          Symbol(p[5]), Symbol(p[0]), Symbol(p[7]), Symbol(p[8])]
  {
    EncodedOf(aid, a, x);
    DigitsOfPlaces(p);
    DigitPlaces(aid);
    hide Encoded, Digits, Symbol, BVID, Value58, Value256, Xored;
  }

  ghost function Id1(): (bytes: seq<Quad>)
    ensures |bytes| == 7
  {
    [Quad(0, 0, 0, 0), Quad(0, 0, 1, 1), Quad(1, 3, 1, 0), Quad(3, 0, 2, 1),
     Quad(0, 3, 2, 1), Quad(1, 2, 1, 1), Quad(0, 0, 2, 0)]
  }

  ghost function Encoded1(): (bytes: seq<Quad>)
    ensures |bytes| == 7
  {
    [Quad(3, 1, 2, 3), Quad(1, 0, 2, 1), Quad(0, 1, 2, 0), Quad(3, 3, 3, 0),
     Quad(1, 2, 2, 3), Quad(1, 3, 0, 0), Quad(0, 0, 2, 0)]
  }

  lemma Bytes1()
    ensures Xored(Id1(), Code(), Encoded1())
  {
    var a, c, x := Id1(), Code(), Encoded1();
    forall i | 0 <= i < 7
      ensures a[i].Valid() && c[i].Valid() && x[i] == XorOfQuads(a[i], c[i])
    {
    }
  }

  lemma Values1()
    ensures Value256(Id1()) == 2363098681050368 && Value256(Encoded1()) == 2375408906947035
  {
    hide Value256;
    Value256Seven(Id1());
    Value256Seven(Encoded1());
  }

  lemma KnownId1(aid: nat)
    requires aid == 111298867365120
    ensures BVID(aid) == "BV1L9Uoa9EUx"
  {
    hide BVID, Symbol, Value256, Value58, Xored, Id1, Encoded1;
    var p: seq<nat> := [18, 31, 47, 55, 52, 52, 15, 47, 25];
    Bytes1();
    Values1();
    Value58Nine(p);
    TextOf(aid, Id1(), Encoded1(), p);
    Symbols1();
  }

  lemma Symbols1()
    ensures Symbol(18) == 'E' && Symbol(31) == 'a' && Symbol(47) == 'U' && Symbol(55) == 'o'
    ensures Symbol(52) == '9' && Symbol(15) == 'L' && Symbol(25) == 'x'
  {
  }

  ghost function Id2(): (bytes: seq<Quad>)
    ensures |bytes| == 7
  {
    [Quad(0, 0, 3, 2), Quad(3, 2, 3, 3), Quad(1, 1, 3, 2), Quad(0, 2, 1, 2),
     Quad(0, 0, 0, 0), Quad(0, 0, 0, 0), Quad(0, 0, 2, 0)]
  }

  ghost function Encoded2(): (bytes: seq<Quad>)
    ensures |bytes| == 7
  {
    [Quad(3, 1, 1, 1), Quad(2, 2, 0, 3), Quad(0, 3, 0, 2), Quad(0, 1, 0, 3),
     Quad(1, 1, 0, 2), Quad(0, 1, 1, 1), Quad(0, 0, 2, 0)]
  }

  lemma Bytes2()
    ensures Xored(Id2(), Code(), Encoded2())
  {
    var a, c, x := Id2(), Code(), Encoded2();
    forall i | 0 <= i < 7
      ensures a[i].Valid() && c[i].Valid() && x[i] == XorOfQuads(a[i], c[i])
    {
    }
  }

  lemma Values2()
    ensures Value256(Id2()) == 2251800457441038 && Value256(Encoded2()) == 2275242067272661
  {
    hide Value256;
    Value256Seven(Id2());
    Value256Seven(Encoded2());
  }

  lemma KnownId2(aid: nat)
    requires aid == 643755790
    ensures BVID(aid) == "BV1bY4y1j7RA"
  {
    hide BVID, Symbol, Value256, Value58, Xored, Id2, Encoded2;
    var p: seq<nat> := [17, 44, 26, 43, 32, 16, 28, 53, 3];
    Bytes2();
    Values2();
    Value58Nine(p);
    TextOf(aid, Id2(), Encoded2(), p);
    Symbols2();
  }

  lemma Symbols2()
    ensures Symbol(17) == '7' && Symbol(44) == '1' && Symbol(26) == '4' && Symbol(43) == 'y' && Symbol(32) == 'Y'
    ensures Symbol(16) == 'j' && Symbol(28) == 'b' && Symbol(53) == 'R' && Symbol(3) == 'A'
  {
  }

  ghost function Id3(): (bytes: seq<Quad>)
    ensures |bytes| == 7
  {
    [Quad(1, 0, 3, 2), Quad(0, 0, 1, 1), Quad(0, 3, 3, 1), Quad(0, 1, 0, 2),
     Quad(0, 0, 0, 0), Quad(0, 0, 0, 0), Quad(0, 0, 2, 0)]
  }

  ghost function Encoded3(): (bytes: seq<Quad>)
    ensures |bytes| == 7
  {
    [Quad(2, 1, 1, 1), Quad(1, 0, 2, 1), Quad(1, 1, 0, 1), Quad(0, 2, 1, 3),
     Quad(1, 1, 0, 2), Quad(0, 1, 1, 1), Quad(0, 0, 2, 0)]
  }

  lemma Bytes3()
    ensures Xored(Id3(), Code(), Encoded3())
  {
    var a, c, x := Id3(), Code(), Encoded3();
    forall i | 0 <= i < 7
      ensures a[i].Valid() && c[i].Valid() && x[i] == XorOfQuads(a[i], c[i])
    {
    }
  }

  lemma Values3()
    ensures Value256(Id3()) == 2251800119674190 && Value256(Encoded3()) == 2275242404825493
  {
    hide Value256;
    Value256Seven(Id3());
    Value256Seven(Encoded3());
  }

  lemma KnownId3(aid: nat)
    requires aid == 305988942
    ensures BVID(aid) == "BV1aP411K7it"
  {
    hide BVID, Symbol, Value256, Value58, Xored, Id3, Encoded3;
    var p: seq<nat> := [17, 44, 26, 44, 4, 6, 31, 35, 27];
    Bytes3();
    Values3();
    Value58Nine(p);
    TextOf(aid, Id3(), Encoded3(), p);
    Symbols3();
  }

  lemma Symbols3()
    ensures Symbol(17) == '7' && Symbol(44) == '1' && Symbol(26) == '4' && Symbol(4) == 'P'
    ensures Symbol(6) == 'K' && Symbol(31) == 'a' && Symbol(35) == 'i' && Symbol(27) == 't'
  {
  }

  ghost function Id4(): (bytes: seq<Quad>)
    ensures |bytes| == 7
  {
    [Quad(3, 2, 0, 2), Quad(0, 0, 1, 0), Quad(3, 1, 3, 3), Quad(0, 3, 3, 2),
     Quad(0, 0, 0, 0), Quad(0, 0, 0, 0), Quad(0, 0, 2, 0)]
  }

  ghost function Encoded4(): (bytes: seq<Quad>)
    ensures |bytes| == 7
  {
    [Quad(0, 3, 2, 1), Quad(1, 0, 2, 0), Quad(2, 3, 0, 3), Quad(0, 0, 2, 3),
     Quad(1, 1, 0, 2), Quad(0, 1, 1, 1), Quad(0, 0, 2, 0)]
  }

  lemma Bytes4()
    ensures Xored(Id4(), Code(), Encoded4())
  {
    var a, c, x := Id4(), Code(), Encoded4();
    forall i | 0 <= i < 7
      ensures a[i].Valid() && c[i].Valid() && x[i] == XorOfQuads(a[i], c[i])
    {
    }
  }

  lemma Values4()
    ensures Value256(Id4()) == 2251800868488418 && Value256(Encoded4()) == 2275241941485625
  {
    hide Value256;
    Value256Seven(Id4());
    Value256Seven(Encoded4());
  }

  lemma KnownId4(aid: nat)
    requires aid == 1054803170
    ensures BVID(aid) == "BV1mH4y1u7UA"
  {
    hide BVID, Symbol, Value256, Value58, Xored, Id4, Encoded4;
    var p: seq<nat> := [17, 44, 26, 43, 21, 9, 46, 47, 3];
    Bytes4();
    Values4();
    Value58Nine(p);
    TextOf(aid, Id4(), Encoded4(), p);
    Symbols4();
  }

  lemma Symbols4()
    ensures Symbol(17) == '7' && Symbol(44) == '1' && Symbol(26) == '4' && Symbol(43) == 'y' && Symbol(21) == 'H'
    ensures Symbol(9) == 'u' && Symbol(46) == 'm' && Symbol(47) == 'U' && Symbol(3) == 'A'
  {
  }

  ghost function Id5(): (bytes: seq<Quad>)
    ensures |bytes| == 7
  {
    [Quad(2, 0, 3, 0), Quad(2, 3, 0, 1), Quad(2, 3, 3, 3), Quad(0, 0, 1, 0),
     Quad(0, 0, 0, 0), Quad(0, 0, 0, 0), Quad(0, 0, 2, 0)]
  }

  ghost function Encoded5(): (bytes: seq<Quad>)
    ensures |bytes| == 7
  {
    [Quad(1, 1, 1, 3), Quad(3, 3, 3, 1), Quad(3, 1, 0, 3), Quad(0, 3, 0, 1),
     Quad(1, 1, 0, 2), Quad(0, 1, 1, 1), Quad(0, 0, 2, 0)]
  }

  lemma Bytes5()
    ensures Xored(Id5(), Code(), Encoded5())
  {
    var a, c, x := Id5(), Code(), Encoded5();
    forall i | 0 <= i < 7
      ensures a[i].Valid() && c[i].Valid() && x[i] == XorOfQuads(a[i], c[i])
    {
    }
  }

  lemma Values5()
    ensures Value256(Id5()) == 2251799893356940 && Value256(Encoded5()) == 2275242581163351
  {
    hide Value256;
    Value256Seven(Id5());
    Value256Seven(Encoded5());
  }

  lemma KnownId5(aid: nat)
    requires aid == 79671692
    ensures BVID(aid) == "BV1EJ411r7kH"
  {
    hide BVID, Symbol, Value256, Value58, Xored, Id5, Encoded5;
    var p: seq<nat> := [17, 44, 26, 44, 19, 40, 18, 41, 21];
    Bytes5();
    Values5();
    Value58Nine(p);
    TextOf(aid, Id5(), Encoded5(), p);
    Symbols5();
  }

  lemma Symbols5()
    ensures Symbol(17) == '7' && Symbol(44) == '1' && Symbol(26) == '4' && Symbol(19) == 'J'
    ensures Symbol(40) == 'r' && Symbol(18) == 'E' && Symbol(41) == 'k' && Symbol(21) == 'H'
  {
  }

  /** The ids and texts that the repository expects of each other, in both directions. */
  lemma KnownIds()
    ensures BVID(111298867365120) == "BV1L9Uoa9EUx" && Decode("BV1L9Uoa9EUx") == Decoded(111298867365120, true)
    ensures BVID(643755790) == "BV1bY4y1j7RA" && Decode("BV1bY4y1j7RA") == Decoded(643755790, true)
    ensures BVID(305988942) == "BV1aP411K7it" && Decode("BV1aP411K7it") == Decoded(305988942, true)
    ensures BVID(1054803170) == "BV1mH4y1u7UA" && Decode("BV1mH4y1u7UA") == Decoded(1054803170, true)
    ensures BVID(79671692) == "BV1EJ411r7kH" && Decode("BV1EJ411r7kH") == Decoded(79671692, true)
  {
    hide BVID, Decode;
    KnownId1(111298867365120);
    RoundTrip(111298867365120, 111298867365120);
    KnownId2(643755790);
    RoundTrip(643755790, 643755790);
    KnownId3(305988942);
    RoundTrip(305988942, 305988942);
    KnownId4(1054803170);
    RoundTrip(1054803170, 1054803170);
    KnownId5(79671692);
    RoundTrip(79671692, 79671692);
  }

  /** The legacy text of the last id, in white space or not. */
  lemma KnownLegacy(before: string, after: string)
    requires forall i | 0 <= i < |before| :: IsBlank(before[i])
    requires forall i | 0 <= i < |after| :: IsBlank(after[i])
    ensures Decode(before + "1EJ411r7kH" + after) == Decoded(79671692, true)
  {
    hide Decode, TrimSpace, BVID, IsBlank;
    TrimsBlanks(before, "1EJ411r7kH", after);
    LegacyForm(before + "1EJ411r7kH" + after);
    assert "BV" + "1EJ411r7kH" == "BV1EJ411r7kH";
    KnownIds();
  }
}
