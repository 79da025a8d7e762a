/** White space as Go's strings package trims it. A string holds one character per byte. */
module Text {

  /** The UTF-8 encodings of the characters that Unicode calls white space. */
  predicate IsSpace(rune: string) {
    || (|rune| == 1 && (9 <= rune[0] as int <= 13 || rune[0] == ' '))
    || (|rune| == 2 && rune[0] as int == 0xC2 && rune[1] as int in {0x85, 0xA0})
    || (|rune| == 3 && (var a, b, c := rune[0] as int, rune[1] as int, rune[2] as int;
         || (a == 0xE1 && b == 0x9A && c == 0x80)
         || (a == 0xE2 && b == 0x80 && (0x80 <= c <= 0x8A || c in {0xA8, 0xA9, 0xAF}))
         || (a == 0xE2 && b == 0x81 && c == 0x9F)
         || (a == 0xE3 && b == 0x80 && c == 0x80)))
  }

  /** How many bytes of white space come first: one character at most. */
  function SpaceAtStart(s: string): (n: nat)
    ensures n <= |s|
  {
    if |s| >= 1 && IsSpace(s[..1]) then 1
    else if |s| >= 2 && IsSpace(s[..2]) then 2
    else if |s| >= 3 && IsSpace(s[..3]) then 3
    else 0
  }

  function SpaceAtEnd(s: string): (n: nat)
    ensures n <= |s|
  {
    if |s| >= 1 && IsSpace(s[|s| - 1..]) then 1
    else if |s| >= 2 && IsSpace(s[|s| - 2..]) then 2
    else if |s| >= 3 && IsSpace(s[|s| - 3..]) then 3
    else 0
  }

  function TrimLeft(s: string): string {
    if SpaceAtStart(s) == 0 then s else TrimLeft(s[SpaceAtStart(s)..])
  }

  function TrimRight(s: string): string {
    if SpaceAtEnd(s) == 0 then s else TrimRight(s[..|s| - SpaceAtEnd(s)])
  }

  function TrimSpace(s: string): string {
    TrimRight(TrimLeft(s))
  }

  lemma NothingToTrim(s: string)
    requires |s| >= 3 && 0x30 <= s[0] as int < 0x80 && 0x30 <= s[|s| - 1] as int < 0x80
    ensures TrimSpace(s) == s
  {
    VisibleStart(s);
    VisibleEnd(s);
  }

  lemma {:induction false} TrimRightEnds(s: string)
    ensures SpaceAtEnd(TrimRight(s)) == 0
    decreases |s|
  {
    hide SpaceAtEnd;
    if SpaceAtEnd(s) != 0 {
      TrimRightEnds(s[..|s| - SpaceAtEnd(s)]);
    }
  }

  /** No trimming is left to do in front of a visible ASCII character. */
  lemma VisibleStart(s: string)
    requires |s| >= 3 && 0x30 <= s[0] as int < 0x80
    ensures TrimLeft(s) == s
  {
    assert SpaceAtStart(s) == 0 by {
      assert s[..1][0] == s[..2][0] == s[..3][0] == s[0];
    }
    hide SpaceAtStart;
  }

  lemma VisibleRune(rune: string)
    requires rune != "" && 0x30 <= rune[|rune| - 1] as int < 0x80
    ensures !IsSpace(rune)
  {
  }

  lemma NoSpaceAtEnd(s: string)
    requires |s| >= 3 && 0x30 <= s[|s| - 1] as int < 0x80
    ensures SpaceAtEnd(s) == 0
  {
    hide IsSpace;
    VisibleRune(s[|s| - 1..]);
    VisibleRune(s[|s| - 2..]);
    VisibleRune(s[|s| - 3..]);
  }

  lemma VisibleEnd(s: string)
    requires |s| >= 3 && 0x30 <= s[|s| - 1] as int < 0x80
    ensures TrimRight(s) == s
  {
    NoSpaceAtEnd(s);
    hide SpaceAtEnd;
  }

  // ----- what white space is -----

  /** The UTF-8 encoding of a code point of the basic plane. */
  function Utf8(rune: nat): string
    requires rune < 0x10000
  {
    if rune < 0x80 then [rune as char]
    else if rune < 0x800 then [(0xC0 + rune / 64) as char, (0x80 + rune % 64) as char]
    else [(0xE0 + rune / 4096) as char, (0x80 + rune / 64 % 64) as char, (0x80 + rune % 64) as char]
  }

  /** White space is what Unicode says it is. */
  lemma SpacesOfUnicode(rune: nat)
    requires rune < 0x10000
    ensures IsSpace(Utf8(rune)) <==>
              (|| 9 <= rune <= 13 || rune in {0x20, 0x85, 0xA0, 0x1680, 0x2028, 0x2029, 0x202F, 0x205F, 0x3000}
               || 0x2000 <= rune <= 0x200A)
  {
  }

  predicate IsBlank(c: char) {
    c in {' ', '\t', '\n', '\r'}
  }

  lemma {:induction false} BlanksBefore(blanks: string, s: string)
    requires forall i | 0 <= i < |blanks| :: IsBlank(blanks[i])
    ensures TrimLeft(blanks + s) == TrimLeft(s)
  {
    if blanks == [] {
      assert blanks + s == s;
    } else {
      var t := blanks + s;
      assert t[..1][0] == blanks[0] && t[1..] == blanks[1..] + s;
      assert SpaceAtStart(t) == 1 by {
        assert IsSpace(t[..1]);
        hide IsSpace;
      }
      hide SpaceAtStart;
      BlanksBefore(blanks[1..], s);
    }
  }

  lemma {:induction false} BlanksAfter(s: string, blanks: string)
    requires forall i | 0 <= i < |blanks| :: IsBlank(blanks[i])
    ensures TrimRight(s + blanks) == TrimRight(s)
    decreases |blanks|
  {
    if blanks == [] {
      assert s + blanks == s;
    } else {
      var t, n := s + blanks, |blanks| - 1;
      assert t[|t| - 1..][0] == blanks[n] && t[..|t| - 1] == s + blanks[..n];
      assert SpaceAtEnd(t) == 1 by {
        assert IsSpace(t[|t| - 1..]);
        hide IsSpace;
      }
      hide SpaceAtEnd;
      BlanksAfter(s, blanks[..n]);
    }
  }

  /** Blanks on either side of visible characters are trimmed away, and nothing else. */
  lemma TrimsBlanks(before: string, s: string, after: string)
    requires forall i | 0 <= i < |before| :: IsBlank(before[i])
    requires forall i | 0 <= i < |after| :: IsBlank(after[i])
    requires |s| >= 3 && 0x30 <= s[0] as int < 0x80 && 0x30 <= s[|s| - 1] as int < 0x80
    ensures TrimSpace(before + s + after) == s
  {
    var t := s + after;
    assert before + s + after == before + t;
    BlanksBefore(before, t);
    assert t[0] == s[0];
    VisibleStart(t);
    BlanksAfter(s, after);
    VisibleEnd(s);
  }
}
