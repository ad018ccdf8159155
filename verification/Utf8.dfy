/** UTF-8 as Python encodes it, and decodes it with `errors="replace"`. */
module Utf8 {
  import opened Basics

  type Byte = int

  const REPLACEMENT: char := '\U{FFFD}'

  predicate ValidScalar(n: int) {
    0 <= n < 0xD800 || 0xE000 <= n < 0x11_0000
  }

  function EncodeChar(c: char): (b: seq<Byte>)
    ensures 1 <= |b| <= 4
  {
    var n := c as int;
    if n < 0x80 then [n]
    else if n < 0x800 then [0xC0 + n / 64, 0x80 + n % 64]
    else if n < 0x1_0000 then [0xE0 + n / 4096, 0x80 + n / 64 % 64, 0x80 + n % 64]
    else [0xF0 + n / 262144, 0x80 + n / 4096 % 64, 0x80 + n / 64 % 64, 0x80 + n % 64]
  }

  function Encode(s: string): seq<Byte> {
    if s == "" then [] else EncodeChar(s[0]) + Encode(s[1..])
  }

  /** How many continuation bytes follow the lead byte; `None` when it cannot lead. */
  function Following(lead: Byte): Option<nat> {
    if 0 <= lead < 0x80 then Some(0)
    else if 0xC2 <= lead <= 0xDF then Some(1)
    else if 0xE0 <= lead <= 0xEF then Some(2)
    else if 0xF0 <= lead <= 0xF4 then Some(3)
    else None
  }

  /** The second byte must also rule out overlong forms, surrogates and values past U+10FFFF. */
  predicate SecondFits(lead: Byte, b: Byte) {
    && 0x80 <= b <= 0xBF
    && (lead == 0xE0 ==> b >= 0xA0) && (lead == 0xED ==> b <= 0x9F)
    && (lead == 0xF0 ==> b >= 0x90) && (lead == 0xF4 ==> b <= 0x8F)
  }

  predicate Continues(b: Byte) {
    0x80 <= b <= 0xBF
  }

  datatype Decoded = Decoded(c: char, used: nat)

  function Scalar(n: int): char {
    if ValidScalar(n) then n as char else REPLACEMENT
  }

  /**
   * The first character of a non-empty byte string; an ill-formed start gives one replacement for its
   * longest valid prefix.
   */
  function DecodeFirst(b: seq<Byte>): (d: Decoded)
    requires b != []
    ensures 1 <= d.used <= |b|
  {
    var lead, n := b[0], Following(b[0]);
    if n.None? then Decoded(REPLACEMENT, 1)
    else if n.value == 0 then Decoded(Scalar(lead), 1)
    else if |b| < 2 || !SecondFits(lead, b[1]) then Decoded(REPLACEMENT, 1)
    else if n.value == 1 then Decoded(Scalar((lead - 0xC0) * 64 + (b[1] - 0x80)), 2)
    else if |b| < 3 || !Continues(b[2]) then Decoded(REPLACEMENT, 2)
    else if n.value == 2 then Decoded(Scalar((lead - 0xE0) * 4096 + (b[1] - 0x80) * 64 + (b[2] - 0x80)), 3)
    else if |b| < 4 || !Continues(b[3]) then Decoded(REPLACEMENT, 3)
    else Decoded(Scalar((lead - 0xF0) * 262144 + (b[1] - 0x80) * 4096 + (b[2] - 0x80) * 64 + (b[3] - 0x80)), 4)
  }

  function Decode(b: seq<Byte>): string {
    if b == [] then ""
    else
      var d := DecodeFirst(b);
      [d.c] + Decode(b[d.used..])
  }

  lemma Base64Digits(n: nat)
    ensures n == n / 64 * 64 + n % 64
    ensures n / 64 == n / 4096 * 64 + n / 64 % 64
    ensures n / 4096 == n / 262144 * 64 + n / 4096 % 64
  {
  }

  lemma FirstOfFour(c: char, rest: seq<Byte>)
    requires c as int >= 0x1_0000
    ensures DecodeFirst(EncodeChar(c) + rest) == Decoded(c, 4)
  {
    Base64Digits(c as int);
  }

  lemma FirstOfThree(c: char, rest: seq<Byte>)
    requires 0x800 <= c as int < 0x1_0000
    ensures DecodeFirst(EncodeChar(c) + rest) == Decoded(c, 3)
  {
    Base64Digits(c as int);
  }

  /** The first character of an encoded string is found, with its length. */
  lemma FirstOfEncoded(c: char, rest: seq<Byte>)
    ensures DecodeFirst(EncodeChar(c) + rest) == Decoded(c, |EncodeChar(c)|)
  {
    if c as int >= 0x1_0000 {
      FirstOfFour(c, rest);
    } else if c as int >= 0x800 {
      FirstOfThree(c, rest);
    }
  }

  lemma DecodeOne(c: char, rest: seq<Byte>)
    ensures Decode(EncodeChar(c) + rest) == [c] + Decode(rest)
  {
    hide EncodeChar, DecodeFirst;
    FirstOfEncoded(c, rest);
    assert (EncodeChar(c) + rest)[|EncodeChar(c)|..] == rest;
  }

  lemma {:induction false} DecodeAfter(s: string, rest: seq<Byte>)
    ensures Decode(Encode(s) + rest) == s + Decode(rest)
    decreases |s|
  {
    hide Decode, EncodeChar;
    if s == "" {
      assert Encode(s) + rest == rest;
      assert s + Decode(rest) == Decode(rest);
    } else {
      ConcatAssociative(EncodeChar(s[0]), Encode(s[1..]), rest);
      DecodeOne(s[0], Encode(s[1..]) + rest);
      DecodeAfter(s[1..], rest);
      ConcatAssociative([s[0]], s[1..], Decode(rest));
      HeadAndTail(s);
    }
  }

  lemma {:induction false} EncodeConcat(a: string, b: string)
    ensures Encode(a + b) == Encode(a) + Encode(b)
    decreases |a|
  {
    if a == "" {
      assert a + b == b;
    } else {
      assert (a + b)[1..] == a[1..] + b;
      EncodeConcat(a[1..], b);
      ConcatAssociative(EncodeChar(a[0]), Encode(a[1..]), Encode(b));
    }
  }

  /** Decoding what was encoded gives it back. */
  lemma RoundTrip(s: string)
    ensures Decode(Encode(s)) == s
  {
    DecodeAfter(s, []);
    assert Encode(s) + [] == Encode(s);
  }

  /** A character cut short decodes to a single replacement. */
  lemma CutCharacter(c: char, k: nat)
    requires 0 < k < |EncodeChar(c)|
    ensures Decode(EncodeChar(c)[..k]) == [REPLACEMENT]
  {
    var b := EncodeChar(c);
    FirstOfEncoded(c, []);
    assert b + [] == b;
    var cut := b[..k];
    assert cut[0] == b[0];
    assert k > 1 ==> cut[1] == b[1];
    assert k > 2 ==> cut[2] == b[2];
    var d := DecodeFirst(cut);
    assert d == Decoded(REPLACEMENT, k);
    assert cut[k..] == [];
  }

  /** Re-encoding a chunk cut inside a character always counts three bytes for the cut character. */
  lemma CutChunkLength(s: string, c: char, k: nat)
    requires 0 < k < |EncodeChar(c)|
    ensures |Encode(Decode(Encode(s) + EncodeChar(c)[..k]))| == |Encode(s)| + 3
  {
    DecodeAfter(s, EncodeChar(c)[..k]);
    CutCharacter(c, k);
    EncodeConcat(s, [REPLACEMENT]);
    assert [REPLACEMENT][1..] == "";
    assert Encode([REPLACEMENT]) == EncodeChar(REPLACEMENT) + Encode("");
  }

  // ------------------------------------------------------------------ what decoding finds

  /** The bytes are a beginning of some character's encoding, but not all of it. */
  ghost predicate Begins(b: seq<Byte>, c: char) {
    |b| < |EncodeChar(c)| && b == EncodeChar(c)[..|b|]
  }

  /** Bytes that begin with an encoded character decode to it. */
  lemma DecodesEncoded(b: seq<Byte>, c: char)
    requires EncodeChar(c) <= b
    ensures DecodeFirst(b) == Decoded(c, |EncodeChar(c)|)
  {
    FirstOfEncoded(c, b[|EncodeChar(c)|..]);
    assert EncodeChar(c) + b[|EncodeChar(c)|..] == b;
  }

  function Value(a: int, b: int, c: int, d: int): int {
    a * 262144 + b * 4096 + c * 64 + d
  }

  lemma DigitsOf(a: int, b: int, c: int, d: int)
    requires a >= 0 && 0 <= b < 64 && 0 <= c < 64 && 0 <= d < 64
    ensures var n := Value(a, b, c, d);
            n / 262144 == a && n / 4096 % 64 == b && n / 64 % 64 == c && n % 64 == d
            && n / 4096 == a * 64 + b && n / 64 == a * 4096 + b * 64 + c
  {
    var n := Value(a, b, c, d);
    assert n / 64 == a * 4096 + b * 64 + c;
    assert n / 4096 == a * 64 + b;
  }

  lemma FourBytes(lead: int, x: int, y: int, z: int)
    requires 0xF0 <= lead <= 0xF4 && SecondFits(lead, x) && Continues(y) && Continues(z)
    ensures var n := Value(lead - 0xF0, x - 0x80, y - 0x80, z - 0x80);
            ValidScalar(n) && EncodeChar(n as char) == [lead, x, y, z]
  {
    DigitsOf(lead - 0xF0, x - 0x80, y - 0x80, z - 0x80);
  }

  lemma ThreeBytes(lead: int, x: int, y: int)
    requires 0xE0 <= lead <= 0xEF && SecondFits(lead, x) && Continues(y)
    ensures var n := Value(0, lead - 0xE0, x - 0x80, y - 0x80);
            lead - 0xE0 < 64 && ValidScalar(n) && EncodeChar(n as char) == [lead, x, y]
  {
    DigitsOf(0, lead - 0xE0, x - 0x80, y - 0x80);
  }

  lemma TwoBytes(lead: int, x: int)
    requires 0xC2 <= lead <= 0xDF && Continues(x)
    ensures var n := Value(0, 0, lead - 0xC0, x - 0x80); ValidScalar(n) && EncodeChar(n as char) == [lead, x]
  {
    DigitsOf(0, 0, lead - 0xC0, x - 0x80);
  }

  /** What decodes to anything but a replacement is that character's encoding. */
  lemma DecodedIsEncoded(b: seq<Byte>)
    requires b != [] && DecodeFirst(b).c != REPLACEMENT
    ensures var d := DecodeFirst(b); b[..d.used] == EncodeChar(d.c)
  {
    var used := DecodeFirst(b).used;
    if used == 1 {
      assert b[..1] == [b[0]];
    } else if used == 2 {
      TwoBytes(b[0], b[1]);
      assert b[..2] == [b[0], b[1]];
    } else if used == 3 {
      ThreeBytes(b[0], b[1], b[2]);
      assert b[..3] == [b[0], b[1], b[2]];
    } else {
      FourBytes(b[0], b[1], b[2], b[3]);
      assert b[..4] == [b[0], b[1], b[2], b[3]];
    }
    hide EncodeChar;
  }

  /** A replacement stands for one byte, or for bytes with which some character's encoding begins. */
  lemma ReplacedBegins(b: seq<Byte>) returns (c: char)
    requires b != [] && DecodeFirst(b).c == REPLACEMENT && DecodeFirst(b).used > 1 && !(EncodeChar(REPLACEMENT) <= b)
    ensures Begins(b[..DecodeFirst(b).used], c)
  {
    if b[0] >= 0xF0 {
      c := ReplacedOfFour(b);
    } else {
      c := ReplacedOfThree(b);
    }
  }

  lemma ReplacedOfFour(b: seq<Byte>) returns (c: char)
    requires b != [] && b[0] >= 0xF0 && DecodeFirst(b).c == REPLACEMENT && DecodeFirst(b).used > 1
    ensures Begins(b[..DecodeFirst(b).used], c)
  {
    var y := if DecodeFirst(b).used >= 3 then b[2] else 0x80;
    FourBytes(b[0], b[1], y, 0x80);
    c := Value(b[0] - 0xF0, b[1] - 0x80, y - 0x80, 0) as char;
    hide EncodeChar, Value;
  }

  lemma ReplacedOfThree(b: seq<Byte>) returns (c: char)
    requires b != [] && b[0] < 0xF0 && DecodeFirst(b).c == REPLACEMENT && DecodeFirst(b).used > 1
    requires !(EncodeChar(REPLACEMENT) <= b)
    ensures Begins(b[..DecodeFirst(b).used], c)
  {
    ThreeBytes(b[0], b[1], 0x80);
    c := Value(0, b[0] - 0xE0, b[1] - 0x80, 0) as char;
  }

  /** No character's encoding begins with more of the bytes than were replaced. */
  lemma NoLongerPrefix(b: seq<Byte>, c: char, m: nat)
    requires b != [] && !(EncodeChar(c) <= b) && m <= |b| && Begins(b[..m], c)
    ensures m <= DecodeFirst(b).used
  {
    var e := EncodeChar(c);
    assert m > 0 ==> b[0] == e[0];
    assert m > 1 ==> b[1] == e[1];
    assert m > 2 ==> b[2] == e[2];
  }

  // ------------------------------------------------------------------ the length of what was decoded

  lemma EncodeOne(c: char, rest: string)
    ensures Encode([c] + rest) == EncodeChar(c) + Encode(rest)
  {
    assert ([c] + rest)[1..] == rest;
  }

  lemma ReplacementLength()
    ensures |EncodeChar(REPLACEMENT)| == 3
  {
  }

  /** A character is never shorter than the bytes it was decoded from. */
  lemma FirstNeverShrinks(b: seq<Byte>)
    requires b != []
    ensures |EncodeChar(DecodeFirst(b).c)| >= DecodeFirst(b).used
  {
  }

  lemma DecodeSplits(b: seq<Byte>)
    requires b != []
    ensures var d := DecodeFirst(b); |Encode(Decode(b))| == |EncodeChar(d.c)| + |Encode(Decode(b[d.used..]))|
  {
    hide EncodeChar, DecodeFirst, Encode;
    EncodeOne(DecodeFirst(b).c, Decode(b[DecodeFirst(b).used..]));
  }

  /** Decoding and encoding again never makes a byte string shorter, whatever the bytes. */
  lemma {:induction false} NeverShrinks(b: seq<Byte>)
    ensures |Encode(Decode(b))| >= |b|
    decreases |b|
  {
    if b != [] {
      hide EncodeChar, DecodeFirst, Encode, Decode;
      DecodeSplits(b);
      FirstNeverShrinks(b);
      NeverShrinks(b[DecodeFirst(b).used..]);
    }
  }

  /** Decoding and encoding again keeps the length. */
  predicate Neutral(b: seq<Byte>) {
    |Encode(Decode(b))| == |b|
  }

  lemma NeutralAfter(c: char, rest: seq<Byte>)
    ensures Neutral(EncodeChar(c) + rest) <==> Neutral(rest)
  {
    hide EncodeChar, Encode, Decode;
    DecodeOne(c, rest);
    EncodeOne(c, Decode(rest));
  }

  lemma CutCharacterLength(c: char, k: nat)
    requires 0 < k < |EncodeChar(c)|
    ensures Neutral(EncodeChar(c)[..k]) <==> k == 3
  {
    hide EncodeChar, Decode;
    CutCharacter(c, k);
    EncodeOne(REPLACEMENT, "");
    assert [REPLACEMENT] + "" == [REPLACEMENT];
    ReplacementLength();
  }

  /** The first byte is no lead byte: its replacement takes two bytes more than it. */
  lemma StrayByte(b: seq<Byte>)
    requires b != [] && 0x80 <= b[0] <= 0xBF
    ensures !Neutral(b)
  {
    hide EncodeChar, Encode, Decode;
    assert DecodeFirst(b) == Decoded(REPLACEMENT, 1);
    DecodeSplits(b);
    ReplacementLength();
    NeverShrinks(b[1..]);
  }

  // ------------------------------------------------------------------ reads of an encoded text

  /** The first `n` bytes of the encoded text end between two characters. */
  predicate OnBoundary(text: string, n: nat) {
    n == 0 || (text != "" && n >= |EncodeChar(text[0])| && OnBoundary(text[1..], n - |EncodeChar(text[0])|))
  }

  /** The first `n` bytes end after three bytes of a four-byte character. */
  predicate CutAfterThree(text: string, n: nat) {
    text != "" &&
    var len := |EncodeChar(text[0])|;
    if n < len then n == 3 else CutAfterThree(text[1..], n - len)
  }

  lemma {:induction false} BoundaryIsNoCut(text: string, n: nat)
    requires OnBoundary(text, n)
    ensures !CutAfterThree(text, n)
    decreases |text|
  {
    hide EncodeChar;
    if text != "" && n >= |EncodeChar(text[0])| {
      BoundaryIsNoCut(text[1..], n - |EncodeChar(text[0])|);
    }
  }

  lemma DropFirst(text: string, from: nat, to: nat)
    requires text != "" && |EncodeChar(text[0])| <= from <= to <= |Encode(text)|
    ensures var len := |EncodeChar(text[0])|;
            to - len <= |Encode(text[1..])| && Encode(text)[from..to] == Encode(text[1..])[from - len..to - len]
  {
    hide EncodeChar;
  }

  lemma KeepFirst(text: string, to: nat)
    requires text != "" && |EncodeChar(text[0])| <= to <= |Encode(text)|
    ensures var len := |EncodeChar(text[0])|;
            to - len <= |Encode(text[1..])|
            && Encode(text)[..to] == EncodeChar(text[0]) + Encode(text[1..])[..to - len]
  {
    hide EncodeChar;
  }

  /** A read from the start of a text keeps its length when it ends between characters or after three bytes of four. */
  lemma {:induction false} NeutralFromStart(text: string, to: nat)
    requires to <= |Encode(text)|
    ensures Neutral(Encode(text)[..to]) <==> OnBoundary(text, to) || CutAfterThree(text, to)
    decreases |text|
  {
    if to == 0 {
      assert Encode(text)[..0] == [];
    } else {
      assert text != "";
      hide Neutral;
      var len := |EncodeChar(text[0])|;
      if len <= to {
        hide EncodeChar;
        KeepFirst(text, to);
        NeutralAfter(text[0], Encode(text[1..])[..to - len]);
        NeutralFromStart(text[1..], to - len);
      } else {
        hide EncodeChar;
        assert Encode(text)[..to] == EncodeChar(text[0])[..to];
        CutCharacterLength(text[0], to);
      }
    }
  }

  /** The same for a read from a boundary. */
  lemma {:induction false} NeutralFromBoundary(text: string, from: nat, to: nat)
    requires OnBoundary(text, from) && from <= to <= |Encode(text)|
    ensures Neutral(Encode(text)[from..to]) <==> OnBoundary(text, to) || CutAfterThree(text, to)
    decreases |text|
  {
    hide EncodeChar, Neutral;
    if from == 0 {
      assert Encode(text)[0..to] == Encode(text)[..to];
      NeutralFromStart(text, to);
    } else {
      DropFirst(text, from, to);
      NeutralFromBoundary(text[1..], from - |EncodeChar(text[0])|, to - |EncodeChar(text[0])|);
    }
  }

  lemma LastByteContinues(c: char)
    requires |EncodeChar(c)| == 4
    ensures 0x80 <= EncodeChar(c)[3] <= 0xBF
  {
  }

  /** A read that goes on after three bytes of a character never keeps its length. */
  lemma {:induction false} NeverNeutralFromCut(text: string, from: nat, to: nat)
    requires CutAfterThree(text, from) && from < to <= |Encode(text)|
    ensures !Neutral(Encode(text)[from..to])
    decreases |text|
  {
    hide Neutral;
    var len := |EncodeChar(text[0])|;
    if len <= from {
      hide EncodeChar;
      DropFirst(text, from, to);
      NeverNeutralFromCut(text[1..], from - len, to - len);
    } else {
      LastByteContinues(text[0]);
      hide EncodeChar;
      assert Encode(text)[from..to][0] == EncodeChar(text[0])[3];
      StrayByte(Encode(text)[from..to]);
    }
  }
}
