/**
 UTF-8 and escape sequences (section 3 of RFC 3629). A text is a sequence of bytes that ends in a
 zero byte, or where the sequence ends; shifts and masks are written as division and remainder.
 */
module Encoding {
  type Byte = b: nat | b < 256

  const INVALID_UTF8 := -10
  const INVALID_ESCAPE := -11

  function At(s: seq<Byte>, k: nat): Byte {
    if k < |s| then s[k] else 0
  }

  // ---------------------------------------------------------------- printing UTF-8

  /** How many bytes a codepoint takes. */
  function Width(c: nat): nat {
    if c <= 0x7F then 1 else if c <= 0x7FF then 2 else if c <= 0xFFFF then 3 else 4
  }

  function PrintAsUTF8(c: nat): (r: seq<Byte>)
    requires c <= 0x10FFFF
    ensures |r| == Width(c)
  {
    if c <= 0x7F then [c]
    else if c <= 0x7FF then [0xC0 + c / 64, 0x80 + c % 64]
    else if c <= 0xFFFF then [0xE0 + c / 64 / 64, 0x80 + c / 64 % 64, 0x80 + c % 64]
    else [0xF0 + c / 64 / 64 / 64, 0x80 + c / 64 / 64 % 64, 0x80 + c / 64 % 64, 0x80 + c % 64]
  }

  ghost predicate Codepoints(cs: seq<nat>) {
    forall i :: 0 <= i < |cs| ==> 1 <= cs[i] <= 0x10FFFF
  }

  function PrintAll(cs: seq<nat>): seq<Byte>
    requires forall i :: 0 <= i < |cs| ==> cs[i] <= 0x10FFFF
  {
    if cs == [] then [] else PrintAsUTF8(cs[0]) + PrintAll(cs[1..])
  }

  // ---------------------------------------------------------------- parsing UTF-8

  /** How many bytes the first byte announces; none for a byte that cannot come first. */
  function NumBytes(b: Byte): nat {
    if b < 0x80 then 1
    else if b < 0xC0 then 0
    else if b < 0xE0 then 2
    else if b < 0xF0 then 3
    else if b < 0xF8 then 4
    else 0
  }

  function FirstBits(b: Byte): nat {
    match NumBytes(b)
    case 1 => b
    case 2 => b % 32
    case 3 => b % 16
    case 4 => b % 8
    case _ => 0
  }

  predicate Continues(b: Byte) {
    0x80 <= b < 0xC0
  }

  /** The first n bytes are a well-announced sequence. */
  predicate Accepted(s: seq<Byte>) {
    NumBytes(At(s, 0)) > 0 && forall k :: 1 <= k < NumBytes(At(s, 0)) ==> Continues(At(s, k))
  }

  /** The value of the first n bytes. */
  function Value(s: seq<Byte>, n: nat): nat {
    if n <= 1 then FirstBits(At(s, 0)) else Value(s, n - 1) * 64 + At(s, n - 1) % 64
  }

  /** The codepoint at the front of a text and the number of bytes to go on. */
  function Next(s: seq<Byte>, lenient: bool): (int, nat) {
    if Accepted(s) then (Value(s, NumBytes(At(s, 0))), NumBytes(At(s, 0)))
    else if lenient then (At(s, 0), 1)
    else (INVALID_UTF8, 0)
  }

  method ParseNextUTF8(s: seq<Byte>, lenient: bool) returns (c: int, n: nat)
    ensures (c, n) == Next(s, lenient)
    ensures s != [] ==> n <= |s|
  {
    var first := At(s, 0);
    var num := NumBytes(first);
    var accepted := num > 0;
    var res := FirstBits(first);
    if accepted {
      var i := 1;
      while i < num
        invariant 1 <= i <= num && res == Value(s, i)
        invariant forall k :: 1 <= k < i ==> Continues(At(s, k))
      {
        if At(s, i) == 0 || !Continues(At(s, i)) {
          accepted := false;
          break;
        }
        res := res * 64 + At(s, i) % 64;
        i := i + 1;
      }
      assert accepted ==> i == num;
      assert accepted && num > 1 ==> Continues(At(s, num - 1));
    }
    if !accepted {
      if lenient {
        return first, 1;
      } else {
        return INVALID_UTF8, 0;
      }
    }
    return res, num;
  }

  lemma NextFits(s: seq<Byte>, lenient: bool)
    requires s != []
    ensures Next(s, lenient).1 <= |s|
    ensures Next(s, lenient).0 != INVALID_UTF8 ==> Next(s, lenient).1 > 0
    ensures Next(s, lenient).0 >= 0 || Next(s, lenient).0 == INVALID_UTF8
  {
    var n := NumBytes(At(s, 0));
    if Accepted(s) && n > 1 {
      assert Continues(At(s, n - 1));
    }
  }

  /** All codepoints of a text, after those already found. */
  function Parsed(s: seq<Byte>, lenient: bool, found: seq<int>): seq<int>
    decreases |s|
  {
    if At(s, 0) == 0 then found
    else
      NextFits(s, lenient);
      var (c, n) := Next(s, lenient);
      if c == INVALID_UTF8 then [c] else Parsed(s[n..], lenient, found + [c])
  }

  method ParseUTF8(s: seq<Byte>, lenient: bool) returns (cs: seq<int>)
    ensures cs == Parsed(s, lenient, [])
    ensures forall orig: seq<nat>, rest ::
              Codepoints(orig) && At(rest, 0) == 0 && s == PrintAll(orig) + rest ==> cs == orig
    ensures forall orig: seq<nat>, bad ::
              Codepoints(orig) && bad != [] && Malformed(bad) && !lenient && s == PrintAll(orig) + bad ==> cs == [-10]
  {
    cs := [];
    var rest := s;
    while At(rest, 0) != 0
      invariant Parsed(s, lenient, []) == Parsed(rest, lenient, cs)
      decreases |rest|
    {
      NextFits(rest, lenient);
      var c, n := ParseNextUTF8(rest, lenient);
      if c == INVALID_UTF8 {
        cs := [c];
        break;
      }
      cs := cs + [c];
      rest := rest[n..];
    }
    forall orig: seq<nat>, rest | Codepoints(orig) && At(rest, 0) == 0 && s == PrintAll(orig) + rest
      ensures cs == orig
    {
      ParsePrinted(orig, rest, lenient);
    }
    forall orig: seq<nat>, bad |
      Codepoints(orig) && bad != [] && Malformed(bad) && !lenient && s == PrintAll(orig) + bad
      ensures cs == [-10]
    {
      ParseMalformed(orig, bad);
    }
  }

  // ---------------------------------------------------------------- round trip

  /** The value of a sequence, byte by byte. */
  lemma ValueOf(s: seq<Byte>)
    ensures Value(s, 1) == FirstBits(At(s, 0))
    ensures Value(s, 2) == Value(s, 1) * 64 + At(s, 1) % 64
    ensures Value(s, 3) == Value(s, 2) * 64 + At(s, 2) % 64
    ensures Value(s, 4) == Value(s, 3) * 64 + At(s, 3) % 64
  {
  }

  lemma PrintedAccepted(c: nat, s: seq<Byte>)
    requires c <= 0x10FFFF && PrintAsUTF8(c) <= s
    ensures Accepted(s) && NumBytes(At(s, 0)) == |PrintAsUTF8(c)|
    ensures forall k :: 0 <= k < |PrintAsUTF8(c)| ==> At(s, k) == PrintAsUTF8(c)[k]
  {
    var p := PrintAsUTF8(c);
    assert forall k :: 0 <= k < |p| ==> At(s, k) == p[k];
    assert NumBytes(p[0]) == |p|;
    assert forall k :: 1 <= k < |p| ==> Continues(p[k]);
  }

  lemma TwoBytes(a: nat, b: nat)
    requires a < 32 && b < 64
    ensures FirstBits(0xC0 + a) == a && (0x80 + b) % 64 == b
  {
  }

  lemma ThreeBytes(a: nat, b: nat, c: nat)
    requires a < 16 && b < 64 && c < 64
    ensures FirstBits(0xE0 + a) == a && (0x80 + b) % 64 == b && (0x80 + c) % 64 == c
  {
  }

  lemma FourBytes(a: nat, b: nat, c: nat, d: nat)
    requires a < 8 && b < 64 && c < 64 && d < 64
    ensures FirstBits(0xF0 + a) == a && (0x80 + b) % 64 == b && (0x80 + c) % 64 == c && (0x80 + d) % 64 == d
  {
  }

  /** A printed codepoint is read back, whatever follows. */
  lemma NextPrinted(c: nat, rest: seq<Byte>, lenient: bool)
    requires c <= 0x10FFFF
    ensures Next(PrintAsUTF8(c) + rest, lenient) == (c, |PrintAsUTF8(c)|)
  {
    var s := PrintAsUTF8(c) + rest;
    PrintedAccepted(c, s);
    ValueOf(s);
    if c <= 0x7F {
    } else if c <= 0x7FF {
      TwoBytes(c / 64, c % 64);
    } else if c <= 0xFFFF {
      ThreeBytes(c / 64 / 64, c / 64 % 64, c % 64);
    } else {
      FourBytes(c / 64 / 64 / 64, c / 64 / 64 % 64, c / 64 % 64, c % 64);
    }
  }

  lemma ParsedStep(p: seq<Byte>, rest: seq<Byte>, c: nat, lenient: bool, found: seq<int>)
    requires p != [] && p[0] != 0 && Next(p + rest, lenient) == (c, |p|)
    ensures Parsed(p + rest, lenient, found) == Parsed(rest, lenient, found + [c])
  {
    assert (p + rest)[|p|..] == rest;
    assert At(p + rest, 0) == p[0];
  }

  lemma PrintedStep(c: nat, rest: seq<Byte>, lenient: bool, found: seq<int>)
    requires 1 <= c <= 0x10FFFF
    ensures Parsed(PrintAsUTF8(c) + rest, lenient, found) == Parsed(rest, lenient, found + [c])
  {
    NextPrinted(c, rest, lenient);
    ParsedStep(PrintAsUTF8(c), rest, c, lenient, found);
  }

  /** The codepoints printed at the front of a text are found first, whatever follows. */
  lemma {:induction false} ParsePrintedFront(cs: seq<nat>, rest: seq<Byte>, lenient: bool, found: seq<int>)
    requires Codepoints(cs)
    ensures Parsed(PrintAll(cs) + rest, lenient, found) == Parsed(rest, lenient, found + cs)
  {
    if cs == [] {
      assert PrintAll(cs) + rest == rest && found + cs == found;
    } else {
      var front, more := PrintAsUTF8(cs[0]), PrintAll(cs[1..]);
      AppendAssoc(front, more, rest);
      PrintedStep(cs[0], more + rest, lenient, found);
      ParsePrintedFront(cs[1..], rest, lenient, found + [cs[0]]);
      FoundStep(found, cs);
    }
  }

  lemma AppendAssoc(a: seq<Byte>, b: seq<Byte>, c: seq<Byte>)
    ensures a + b + c == a + (b + c)
  {
  }

  /** The text printed for a list of codepoints is parsed to this list, up to the first zero byte. */
  lemma ParsePrinted(cs: seq<nat>, rest: seq<Byte>, lenient: bool)
    requires Codepoints(cs) && At(rest, 0) == 0
    ensures Parsed(PrintAll(cs) + rest, lenient, []) == cs
  {
    ParsePrintedFront(cs, rest, lenient, []);
  }

  // ---------------------------------------------------------------- errors

  /** The first bytes are no sequence: a byte that cannot come first, or a missing continuation byte. */
  predicate Malformed(s: seq<Byte>) {
    || 0x80 <= At(s, 0) < 0xC0 || At(s, 0) >= 0xF8
    || (At(s, 0) >= 0xC0 && !(0x80 <= At(s, 1) < 0xC0))
    || (At(s, 0) >= 0xE0 && !(0x80 <= At(s, 2) < 0xC0))
    || (At(s, 0) >= 0xF0 && !(0x80 <= At(s, 3) < 0xC0))
  }

  /** A malformed text is refused, or its first byte is taken as it is; any other is read either way. */
  lemma NextErrors(s: seq<Byte>)
    ensures Malformed(s) ==> Next(s, false) == (-10, 0) && Next(s, true) == (At(s, 0), 1)
    ensures !Malformed(s) ==> Next(s, true) == Next(s, false) && Next(s, false).0 >= 0
    ensures !Malformed(s) ==>
              Next(s, false).1 == if At(s, 0) < 0x80 then 1 else if At(s, 0) < 0xE0 then 2
                                  else if At(s, 0) < 0xF0 then 3 else 4
  {
    assert !Malformed(s) <==> Accepted(s) by {
      assert Continues(At(s, 1)) <==> 0x80 <= At(s, 1) < 0xC0;
      assert Continues(At(s, 2)) <==> 0x80 <= At(s, 2) < 0xC0;
      assert Continues(At(s, 3)) <==> 0x80 <= At(s, 3) < 0xC0;
    }
  }

  /**
   Behind good codepoints, a malformed sequence spoils the whole strict answer; the lenient one
   goes on behind its first byte.
   */
  lemma ParseMalformed(cs: seq<nat>, bad: seq<Byte>)
    requires Codepoints(cs) && bad != [] && Malformed(bad)
    ensures Parsed(PrintAll(cs) + bad, false, []) == [-10]
    ensures Parsed(PrintAll(cs) + bad, true, []) == Parsed(bad[1..], true, cs + [bad[0] as int])
  {
    NextErrors(bad);
    assert [] + cs == cs;
    ParsePrintedFront(cs, bad, false, []);
    ParsePrintedFront(cs, bad, true, []);
  }

  /** Some codepoints in their bytes, one of each length. */
  lemma KnownBytes()
    ensures PrintAsUTF8(0x41) == [0x41] && PrintAsUTF8(0xE9) == [0xC3, 0xA9]
    ensures PrintAsUTF8(0x20AC) == [0xE2, 0x82, 0xAC] && PrintAsUTF8(0x1F600) == [0xF0, 0x9F, 0x98, 0x80]
  {
  }

  lemma FoundStep(found: seq<int>, cs: seq<nat>)
    requires cs != []
    ensures found + [cs[0]] + cs[1..] == found + cs
  {
  }

  /** The first bytes of a sequence show that it is in range and no longer than needed. */
  predicate Shortest(s: seq<Byte>) {
    match NumBytes(At(s, 0))
    case 1 => true
    case 2 => At(s, 0) >= 0xC2
    case 3 => At(s, 0) > 0xE0 || At(s, 1) >= 0xA0
    case 4 =>
      && (At(s, 0) > 0xF0 || At(s, 1) >= 0x90)
      && (At(s, 0) < 0xF4 || (At(s, 0) == 0xF4 && At(s, 1) < 0x90))
    case _ => false
  }

  /**
   The parser accepts more than what is ever printed. What it accepts is printed back exactly
   when the first two bytes rule out an overlong form and a value out of range.
   */
  lemma ReprintedIff(s: seq<Byte>)
    requires s != [] && Accepted(s)
    ensures var (c, n) := Next(s, false);
            && 0 <= c < 0x200000 && n <= |s|
            && (c <= 0x10FFFF && PrintAsUTF8(c) == s[..n] <==> Shortest(s))
  {
    NextFits(s, false);
    var n := NumBytes(s[0]);
    var c := Value(s, n);
    ShortestIsLength(s, c, n);
    if Shortest(s) {
      SameBytes(s, c, n);
    }
  }

  lemma FirstBitsAre(b: Byte)
    requires NumBytes(b) > 1
    ensures FirstBits(b) == b - (if b < 0xE0 then 0xC0 else if b < 0xF0 then 0xE0 else 0xF0)
  {
  }

  lemma LowBitsAre(b: Byte)
    requires Continues(b)
    ensures b % 64 == b - 0x80
  {
  }

  /** The value of an accepted sequence in terms of its bytes. */
  lemma ValueIs(s: seq<Byte>, n: nat)
    requires Accepted(s) && n == NumBytes(At(s, 0))
    ensures n == 1 ==> Value(s, n) == At(s, 0)
    ensures n == 2 ==> Value(s, n) == (At(s, 0) - 0xC0) * 64 + (At(s, 1) - 0x80)
    ensures n == 3 ==> Value(s, n) == ((At(s, 0) - 0xE0) * 64 + (At(s, 1) - 0x80)) * 64 + (At(s, 2) - 0x80)
    ensures n == 4 ==>
              Value(s, n)
              == (((At(s, 0) - 0xF0) * 64 + (At(s, 1) - 0x80)) * 64 + (At(s, 2) - 0x80)) * 64 + (At(s, 3) - 0x80)
    ensures forall k :: 1 <= k < n ==> Continues(At(s, k))
  {
    ValueOf(s);
    if n > 1 {
      FirstBitsAre(At(s, 0));
      LowBitsAre(At(s, 1));
    }
    if n > 2 {
      LowBitsAre(At(s, 2));
    }
    if n > 3 {
      LowBitsAre(At(s, 3));
    }
  }

  /** The bytes tell how long the value is when it is printed. */
  lemma ShortestIsLength(s: seq<Byte>, c: nat, n: nat)
    requires Accepted(s) && n == NumBytes(At(s, 0)) && c == Value(s, n)
    ensures c < 0x200000 && (Shortest(s) <==> c <= 0x10FFFF && Width(c) == n)
  {
    ValueIs(s, n);
  }

  lemma SameGroups(a: nat, x: nat, b: nat, y: nat)
    requires x < 64 && y < 64 && a * 64 + x == b * 64 + y
    ensures a == b && x == y
  {
  }

  lemma {:induction false} SameValues(s: seq<Byte>, t: seq<Byte>, n: nat)
    requires n > 0 && Value(s, n) == Value(t, n)
    ensures FirstBits(At(s, 0)) == FirstBits(At(t, 0))
    ensures forall k :: 1 <= k < n ==> At(s, k) % 64 == At(t, k) % 64
  {
    if n > 1 {
      SameGroups(Value(s, n - 1), At(s, n - 1) % 64, Value(t, n - 1), At(t, n - 1) % 64);
      SameValues(s, t, n - 1);
    }
  }

  /** Sequences of the same length with the same value are the same. */
  lemma ValueInjective(s: seq<Byte>, t: seq<Byte>, n: nat)
    requires Accepted(s) && Accepted(t) && n == NumBytes(At(s, 0)) == NumBytes(At(t, 0))
    requires Value(s, n) == Value(t, n)
    ensures forall k :: 0 <= k < n ==> At(s, k) == At(t, k)
  {
    SameValues(s, t, n);
    if n > 1 {
      FirstBitsAre(At(s, 0));
      FirstBitsAre(At(t, 0));
    }
    forall k | 1 <= k < n ensures At(s, k) == At(t, k) {
      LowBitsAre(At(s, k));
      LowBitsAre(At(t, k));
    }
  }

  lemma SameBytes(s: seq<Byte>, c: nat, n: nat)
    requires Accepted(s) && n == NumBytes(At(s, 0)) <= |s| && c == Value(s, n)
    requires c <= 0x10FFFF && Width(c) == n
    ensures PrintAsUTF8(c) == s[..n]
  {
    var p := PrintAsUTF8(c);
    assert p + [] == p;
    PrintedAccepted(c, p);
    NextPrinted(c, [], false);
    ValueInjective(s, p, n);
    assert forall k :: 0 <= k < n ==> At(s, k) == s[k];
  }

  /** An overlong form is accepted and not printed back. */
  lemma OverlongAccepted()
    ensures Next([0xC1, 0x81], false) == (0x41, 2) && PrintAsUTF8(0x41) != [0xC1, 0x81]
  {
    var s: seq<Byte> := [0xC1, 0x81];
    assert Accepted(s) && Value(s, 1) == 1 && Value(s, 2) == 0x41;
  }

  // ---------------------------------------------------------------- escape sequences

  const BACKSLASH: Byte := 92

  /** Letter of the two-character escape of a codepoint, 0 if there is none. */
  function EscapeLetter(c: nat): Byte {
    match c
    case 39 => 39 // '
    case 34 => 34 // "
    case 63 => 63 // ?
    case 92 => 92 // \
    case 7 => 97 // a
    case 8 => 98 // b
    case 12 => 102 // f
    case 10 => 110 // n
    case 13 => 114 // r
    case 9 => 116 // t
    case 11 => 118 // v
    case 0 => 48 // 0
    case 27 => 101 // e
    case _ => 0
  }

  /** Codepoint of a two-character escape, -1 if there is none. */
  function EscapeValue(b: Byte): int {
    match b
    case 39 => 39
    case 34 => 34
    case 63 => 63
    case 92 => 92
    case 97 => 7
    case 98 => 8
    case 102 => 12
    case 110 => 10
    case 114 => 13
    case 116 => 9
    case 118 => 11
    case 48 => 0
    case 101 => 27
    case _ => -1
  }

  function HexDigit(d: nat): Byte
    requires d < 16
  {
    if d < 10 then 48 + d else 97 + d - 10
  }

  function HexCharToInt(b: Byte): int {
    if 48 <= b <= 57 then b - 48
    else if 97 <= b <= 102 then b - 97 + 10
    else if 65 <= b <= 70 then b - 65 + 10
    else -1
  }

  /** Lower-case hexadecimal digits, padded with zeros to the given width. */
  function Hex(c: nat, width: nat): seq<Byte> {
    if width == 0 then [] else Hex(c / 16, width - 1) + [HexDigit(c % 16)]
  }

  predicate AsItIs(c: nat) {
    EscapeLetter(c) == 0 && 0x20 <= c <= 0x7E
  }

  /** Printed with \x, whose digits have no fixed number. */
  predicate ShortHex(c: nat) {
    EscapeLetter(c) == 0 && !AsItIs(c) && c <= 0xFF
  }

  function PrintAsEscaped(c: nat): seq<Byte> {
    if EscapeLetter(c) != 0 then [BACKSLASH, EscapeLetter(c)]
    else if AsItIs(c) then [c]
    else if c <= 0xFF then [BACKSLASH, 120] + Hex(c, 2)
    else if c <= 0xFFFF then [BACKSLASH, 117] + Hex(c, 4)
    else [BACKSLASH, 85] + Hex(c, 8)
  }

  /** Number of hexadecimal digits from position k on. */
  function Digits(s: seq<Byte>, k: nat): (n: nat)
    decreases |s| - k
  {
    if k < |s| && HexCharToInt(At(s, k)) != -1 then 1 + Digits(s, k + 1) else 0
  }

  /** Value of the n digits from position k on, put behind v. */
  function HexValue(s: seq<Byte>, k: nat, n: nat): int {
    if n == 0 then 0 else HexValue(s, k, n - 1) * 16 + HexCharToInt(At(s, k + n - 1))
  }

  function NextEscaped(s: seq<Byte>): (int, nat) {
    if At(s, 0) != BACKSLASH then Next(s, false)
    else if EscapeValue(At(s, 1)) != -1 then (EscapeValue(At(s, 1)), 2)
    else if At(s, 1) == 120 then
      if Digits(s, 2) == 0 then (INVALID_ESCAPE, 0) else (HexValue(s, 2, Digits(s, 2)), Digits(s, 2) + 2)
    else if At(s, 1) == 117 || At(s, 1) == 85 then
      var n := if At(s, 1) == 117 then 4 else 8;
      if Digits(s, 2) < n then (INVALID_ESCAPE, 0) else (HexValue(s, 2, n), n + 2)
    else (INVALID_ESCAPE, 0)
  }

  lemma {:induction false} DigitsAre(s: seq<Byte>, k: nat, n: nat)
    requires forall i :: k <= i < k + n ==> HexCharToInt(At(s, i)) != -1
    ensures Digits(s, k) >= n
    ensures HexCharToInt(At(s, k + n)) == -1 ==> Digits(s, k) == n
    decreases n
  {
    if n > 0 {
      assert HexCharToInt(At(s, k)) != -1;
      DigitsAre(s, k + 1, n - 1);
    }
  }

  method ParseNextUTF8OrEscaped(s: seq<Byte>) returns (c: int, n: nat)
    ensures (c, n) == NextEscaped(s)
  {
    if At(s, 0) != BACKSLASH {
      c, n := ParseNextUTF8(s, false);
    } else if EscapeValue(At(s, 1)) != -1 {
      return EscapeValue(At(s, 1)), 2;
    } else if At(s, 1) == 120 {
      c, n := ParseShortHex(s);
    } else if At(s, 1) == 117 || At(s, 1) == 85 {
      c, n := ParseLongHex(s, if At(s, 1) == 117 then 4 else 8);
    } else {
      return INVALID_ESCAPE, 0;
    }
  }

  method ParseShortHex(s: seq<Byte>) returns (c: int, n: nat)
    ensures (c, n) == if Digits(s, 2) == 0 then (INVALID_ESCAPE, 0)
                      else (HexValue(s, 2, Digits(s, 2)), Digits(s, 2) + 2)
  {
    var len := 0;
    c := 0;
    while HexCharToInt(At(s, 2 + len)) != -1
      invariant 0 <= len && c == HexValue(s, 2, len)
      invariant forall i :: 2 <= i < 2 + len ==> HexCharToInt(At(s, i)) != -1
      decreases |s| - len
    {
      c := c * 16 + HexCharToInt(At(s, 2 + len));
      len := len + 1;
    }
    DigitsAre(s, 2, len);
    if len == 0 {
      return INVALID_ESCAPE, 0;
    }
    n := len + 2;
  }

  method ParseLongHex(s: seq<Byte>, len: nat) returns (c: int, n: nat)
    ensures (c, n) == if Digits(s, 2) < len then (INVALID_ESCAPE, 0) else (HexValue(s, 2, len), len + 2)
  {
    c := 0;
    for i := 0 to len
      invariant c == HexValue(s, 2, i)
      invariant forall j :: 2 <= j < 2 + i ==> HexCharToInt(At(s, j)) != -1
    {
      var digit := HexCharToInt(At(s, i + 2));
      if digit == -1 {
        DigitsAre(s, 2, i);
        return INVALID_ESCAPE, 0;
      }
      c := c * 16 + digit;
    }
    DigitsAre(s, 2, len);
    n := len + 2;
  }

  // ---------------------------------------------------------------- round trip of escapes

  function Power16(n: nat): nat {
    if n == 0 then 1 else 16 * Power16(n - 1)
  }

  lemma {:induction false} HexIsDigits(c: nat, width: nat)
    ensures |Hex(c, width)| == width
    ensures forall i :: 0 <= i < width ==> HexCharToInt(Hex(c, width)[i]) != -1
  {
    if width > 0 {
      HexIsDigits(c / 16, width - 1);
    }
  }

  /** The digits printed for a number have its value. */
  lemma {:induction false} HexHasValue(c: nat, width: nat, s: seq<Byte>, k: nat)
    requires c < Power16(width)
    requires |Hex(c, width)| == width && forall i :: 0 <= i < width ==> At(s, k + i) == Hex(c, width)[i]
    ensures HexValue(s, k, width) == c
  {
    if width > 0 {
      HexIsDigits(c / 16, width - 1);
      var front := Hex(c / 16, width - 1);
      assert Hex(c, width) == front + [HexDigit(c % 16)];
      forall i | 0 <= i < width - 1 ensures At(s, k + i) == front[i] {
        assert At(s, k + i) == Hex(c, width)[i];
      }
      HexHasValue(c / 16, width - 1, s, k);
      assert At(s, k + (width - 1)) == Hex(c, width)[width - 1] == HexDigit(c % 16);
    }
  }

  lemma HexReadBack(c: nat, width: nat, s: seq<Byte>, rest: seq<Byte>)
    requires c < Power16(width) && |s| == 2 + width + |rest|
    requires s[2..] == Hex(c, width) + rest
    ensures HexValue(s, 2, width) == c && Digits(s, 2) >= width
    ensures Digits(s, 2) == width <==> HexCharToInt(At(rest, 0)) == -1
  {
    HexIsDigits(c, width);
    forall i | 0 <= i < width ensures At(s, 2 + i) == Hex(c, width)[i] {
      assert s[2..][i] == s[2 + i];
    }
    HexHasValue(c, width, s, 2);
    forall i | 2 <= i < 2 + width ensures HexCharToInt(At(s, i)) != -1 {
      assert At(s, 2 + (i - 2)) == Hex(c, width)[i - 2];
    }
    DigitsAre(s, 2, width);
    assert At(s, 2 + width) == At(rest, 0) by {
      if rest != [] {
        assert s[2..][width] == rest[0];
      }
    }
    if HexCharToInt(At(rest, 0)) != -1 {
      DigitsAre(s, 2, width + 1);
    }
  }

  /** What is printed for a codepoint is read back, unless a hexadecimal digit follows a \x form. */
  lemma EscapedReadBackIff(c: nat, rest: seq<Byte>)
    requires c <= 0x10FFFF
    ensures var p := PrintAsEscaped(c);
            NextEscaped(p + rest) == (c, |p|) <==> !(ShortHex(c) && HexCharToInt(At(rest, 0)) != -1)
  {
    var p := PrintAsEscaped(c);
    var s := p + rest;
    if EscapeLetter(c) != 0 {
      assert At(s, 0) == BACKSLASH && At(s, 1) == EscapeLetter(c);
    } else if AsItIs(c) {
      assert s == PrintAsUTF8(c) + rest;
      NextPrinted(c, rest, false);
    } else {
      var width := if c <= 0xFF then 2 else if c <= 0xFFFF then 4 else 8;
      HexIsDigits(c, width);
      assert Power16(2) == 0x100 && Power16(4) == 0x10000 && Power16(8) == 0x100000000;
      assert s[2..] == Hex(c, width) + rest;
      HexReadBack(c, width, s, rest);
    }
  }

  // ---------------------------------------------------------------- the tables on the bytes

  /** The value of every hexadecimal digit, in lower and in upper case; there are no others. */
  lemma HexDigits(b: Byte)
    ensures forall d :: 0 <= d < 16 ==>
              && HexCharToInt("0123456789abcdef"[d] as nat) == d
              && HexCharToInt("0123456789ABCDEF"[d] as nat) == d
    ensures HexCharToInt(b) != -1 <==> IsHex(b)
  {
  }

  predicate IsHex(b: nat) {
    48 <= b <= 57 || 97 <= b <= 102 || 65 <= b <= 70
  }

  /** The letters of the named escapes, and the codepoints that they name. */
  const LETTERS: string := "'\"?\\abfnrtv0e"
  const NAMED: seq<nat> := [39, 34, 63, 92, 7, 8, 12, 10, 13, 9, 11, 0, 27]

  lemma NamedEscapes(k: nat, rest: seq<Byte>)
    requires k < 13
    ensures |LETTERS| == |NAMED| == 13 && LETTERS[k] as nat < 256 && NAMED[k] < 256
    ensures PrintAsEscaped(NAMED[k]) == [92, LETTERS[k] as nat]
    ensures NextEscaped([92, LETTERS[k] as nat] + rest) == (NAMED[k], 2)
  {
    var s := [92, LETTERS[k] as nat] + rest;
    assert At(s, 0) == 92 && At(s, 1) == LETTERS[k] as nat;
  }

  /** No other letter names a codepoint, and no other codepoint has a name. */
  lemma OnlyNamed(b: Byte, c: nat)
    ensures EscapeValue(b) != -1 ==> exists k :: 0 <= k < |LETTERS| && LETTERS[k] as nat == b
    ensures EscapeLetter(c) != 0 ==> c in NAMED
  {
    if EscapeValue(b) != -1 {
      var v := EscapeValue(b);
      var k := if v == 39 then 0 else if v == 34 then 1 else if v == 63 then 2 else if v == 92 then 3 else
               if v == 7 then 4 else if v == 8 then 5 else if v == 12 then 6 else if v == 10 then 7 else
               if v == 13 then 8 else if v == 9 then 9 else if v == 11 then 10 else if v == 0 then 11 else 12;
      assert LETTERS[k] as nat == b;
    }
  }

  /** The shape in which a codepoint without a name is printed. */
  lemma PrintedShape(c: nat)
    requires c <= 0x10FFFF && c !in NAMED
    ensures 0x20 <= c <= 0x7E ==> PrintAsEscaped(c) == [c]
    ensures !(0x20 <= c <= 0x7E) ==>
              var p := PrintAsEscaped(c);
              && |p| == (if c <= 0xFF then 4 else if c <= 0xFFFF then 6 else 10)
              && p[0] == 92 && p[1] == "xuU"[if c <= 0xFF then 0 else if c <= 0xFFFF then 1 else 2] as nat
  {
    OnlyNamed(0, c);
    HexIsDigits(c, 2);
    HexIsDigits(c, 4);
    HexIsDigits(c, 8);
  }

  /** An escape is refused exactly when its letter is unknown or digits are missing. */
  lemma EscapeErrors(s: seq<Byte>)
    requires At(s, 0) == 92
    ensures At(s, 1) == 'x' as nat ==> (NextEscaped(s) == (-11, 0) <==> !IsHex(At(s, 2)))
    ensures At(s, 1) == 'u' as nat ==> (NextEscaped(s) == (-11, 0) <==> exists i :: 2 <= i < 6 && !IsHex(At(s, i)))
    ensures At(s, 1) == 'U' as nat ==> (NextEscaped(s) == (-11, 0) <==> exists i :: 2 <= i < 10 && !IsHex(At(s, i)))
    ensures (forall k :: 0 <= k < |LETTERS| ==> LETTERS[k] as nat != At(s, 1)) ==>
              At(s, 1) in {'x' as nat, 'u' as nat, 'U' as nat} || NextEscaped(s) == (-11, 0)
  {
    OnlyNamed(At(s, 1), 0);
    FewDigits(s, 2, 1);
    FewDigits(s, 2, 4);
    FewDigits(s, 2, 8);
  }

  /** There are fewer than n digits from position k on exactly when one of the n bytes is none. */
  lemma {:induction false} FewDigits(s: seq<Byte>, k: nat, n: nat)
    ensures Digits(s, k) < n <==> exists i :: k <= i < k + n && !IsHex(At(s, i))
    decreases n
  {
    if n > 0 {
      FewDigits(s, k + 1, n - 1);
      HexDigits(At(s, k));
      if exists i :: k <= i < k + n && !IsHex(At(s, i)) {
        var i :| k <= i < k + n && !IsHex(At(s, i));
        assert i == k || k + 1 <= i < k + 1 + (n - 1);
      }
    }
  }
}
