/** Percent-encoding of UTF-16 strings (section 19.2.6 of ECMA-262): `encodeURIComponent` and `decodeURIComponent`. */
module UriComponent {
  import opened Wrappers

  type CodeUnit = u: int | 0 <= u < 0x1_0000 witness 0
  type Octet = b: int | 0 <= b < 256 witness 0
  type Str = seq<CodeUnit>

  const PERCENT: CodeUnit := 37
  const DOT: CodeUnit := 46
  const SLASH: CodeUnit := 47
  const BACKSLASH: CodeUnit := 92

  predicate IsHigh(u: int) { 0xD800 <= u < 0xDC00 }
  predicate IsLow(u: int) { 0xDC00 <= u < 0xE000 }

  /** Code points that UTF-8 can carry: everything but the surrogates. */
  predicate Scalar(cp: int) {
    0 <= cp < 0x11_0000 && !(0xD800 <= cp < 0xE000)
  }

  function PairPoint(high: int, low: int): int {
    (high - 0xD800) * 0x400 + (low - 0xDC00) + 0x1_0000
  }

  /** The code point a string starts with and the units it takes; None for a surrogate on its own. */
  function FirstPoint(s: Str): (r: Option<(int, nat)>)
    requires |s| > 0
    ensures r.Some? ==> 1 <= r.value.1 <= 2 && r.value.1 <= |s| && Scalar(r.value.0)
  {
    if IsHigh(s[0]) then
      if |s| > 1 && IsLow(s[1]) then Some((PairPoint(s[0], s[1]), 2)) else None
    else if IsLow(s[0]) then None
    else Some((s[0], 1))
  }

  function UnitsOf(cp: int): Str
    requires Scalar(cp)
  {
    if cp < 0x1_0000 then [cp]
    else [0xD800 + (cp - 0x1_0000) / 0x400, 0xDC00 + (cp - 0x1_0000) % 0x400]
  }

  /** No surrogate stands alone. */
  predicate WellFormed(s: Str) {
    |s| == 0 || (FirstPoint(s).Some? && WellFormed(s[FirstPoint(s).value.1..]))
  }

  // ---------------------------------------------------------------- UTF-8

  function Utf8(cp: int): (o: seq<Octet>)
    requires Scalar(cp)
    ensures 1 <= |o| <= 4
  {
    if cp < 0x80 then [cp]
    else if cp < 0x800 then [0xC0 + cp / 0x40, 0x80 + cp % 0x40]
    else if cp < 0x1_0000 then [0xE0 + cp / 0x1000, 0x80 + cp / 0x40 % 0x40, 0x80 + cp % 0x40]
    else [0xF0 + cp / 0x4_0000, 0x80 + cp / 0x1000 % 0x40, 0x80 + cp / 0x40 % 0x40, 0x80 + cp % 0x40]
  }

  /** How many octets a first octet announces; 0 when it cannot come first. */
  function Announced(b: Octet): (n: nat)
    ensures n <= 4
  {
    if b < 0x80 then 1
    else if 0xC0 <= b < 0xE0 then 2
    else if 0xE0 <= b < 0xF0 then 3
    else if 0xF0 <= b < 0xF8 then 4
    else 0
  }

  predicate Continuation(b: Octet) { 0x80 <= b < 0xC0 }

  /** The code point of a complete octet group; None when it is overlong, a surrogate or out of range. */
  function Utf8Point(o: seq<Octet>): (r: Option<int>)
    requires |o| > 0 && |o| == Announced(o[0])
    ensures r.Some? ==> Scalar(r.value)
  {
    if exists i :: 1 <= i < |o| && !Continuation(o[i]) then None
    else
      var cp := if |o| == 1 then o[0] as int else if |o| == 2 then Join2(o[0] - 0xC0, o[1])
                else if |o| == 3 then Join3(o[0] - 0xE0, o[1], o[2]) else Join4(o[0] - 0xF0, o[1], o[2], o[3]);
      if cp >= Least(|o|) && Scalar(cp) then Some(cp) else None
  }

  /** The least code point that needs a group of `n` octets. */
  function Least(n: nat): int {
    if n == 1 then 0 else if n == 2 then 0x80 else if n == 3 then 0x800 else 0x1_0000
  }

  function Join2(a: int, b: int): int { a * 0x40 + (b - 0x80) }

  function Join3(a: int, b: int, c: int): int { Join2(Join2(a, b), c) }

  function Join4(a: int, b: int, c: int, d: int): int { Join2(Join3(a, b, c), d) }

  lemma Utf8RoundTrip(cp: int)
    requires Scalar(cp)
    ensures Announced(Utf8(cp)[0]) == |Utf8(cp)|
    ensures Utf8Point(Utf8(cp)) == Some(cp)
  {
    var o := Utf8(cp);
    SixBits(cp);
    SixBits(cp / 0x40);
    SixBits(cp / 0x1000);
    assert cp / 0x40 / 0x40 == cp / 0x1000 && cp / 0x1000 / 0x40 == cp / 0x4_0000;
    if cp < 0x80 {
      assert Utf8Point(o) == Some(cp);
    } else if cp < 0x800 {
      assert Join2(o[0] - 0xC0, o[1]) == cp;
    } else if cp < 0x1_0000 {
      assert Join3(o[0] - 0xE0, o[1], o[2]) == cp;
    } else {
      assert Join4(o[0] - 0xF0, o[1], o[2], o[3]) == cp;
    }
  }

  /** The octet groups that are read are exactly those that are written: no overlong form, no surrogate. */
  lemma Utf8PointIff(o: seq<Octet>, cp: int)
    requires |o| > 0 && |o| == Announced(o[0])
    ensures Utf8Point(o) == Some(cp) <==> Scalar(cp) && Utf8(cp) == o
  {
    if Scalar(cp) && Utf8(cp) == o {
      Utf8RoundTrip(cp);
    }
    if Utf8Point(o) == Some(cp) {
      Utf8Written(o, cp);
    }
  }

  lemma Utf8Written(o: seq<Octet>, cp: int)
    requires |o| > 0 && |o| == Announced(o[0]) && Utf8Point(o) == Some(cp)
    ensures Utf8(cp) == o
  {
    assert forall i :: 1 <= i < |o| ==> Continuation(o[i]);
    if |o| == 2 {
      JoinSplits(o[0] - 0xC0, o[1]);
    } else if |o| == 3 {
      JoinSplits(o[0] - 0xE0, o[1]);
      JoinSplits(Join2(o[0] - 0xE0, o[1]), o[2]);
      TwelveBits(cp);
    } else if |o| == 4 {
      JoinSplits(o[0] - 0xF0, o[1]);
      JoinSplits(Join2(o[0] - 0xF0, o[1]), o[2]);
      JoinSplits(Join3(o[0] - 0xF0, o[1], o[2]), o[3]);
      TwelveBits(cp);
    }
  }

  lemma JoinSplits(a: int, b: int)
    requires a >= 0 && 0x80 <= b < 0xC0
    ensures Join2(a, b) / 0x40 == a && 0x80 + Join2(a, b) % 0x40 == b && Join2(a, b) >= 0
  {
  }

  lemma TwelveBits(n: int)
    requires n >= 0
    ensures n / 0x40 / 0x40 == n / 0x1000 && n / 0x1000 / 0x40 == n / 0x4_0000
  {
  }

  lemma SixBits(n: int)
    requires n >= 0
    ensures Join2(n / 0x40, 0x80 + n % 0x40) == n && 0x80 <= 0x80 + n % 0x40 < 0xC0
  {
  }

  // ---------------------------------------------------------------- escapes

  function HexDigit(n: int): CodeUnit
    requires 0 <= n < 16
  {
    if n < 10 then 48 + n else 55 + n
  }

  function HexValue(u: CodeUnit): (r: Option<int>)
    ensures r.Some? ==> 0 <= r.value < 16
  {
    if 48 <= u <= 57 then Some(u - 48)
    else if 65 <= u <= 70 then Some(u - 55)
    else if 97 <= u <= 102 then Some(u - 87)
    else None
  }

  function EscapeOctet(b: Octet): (s: Str)
    ensures |s| == 3
  {
    [PERCENT, HexDigit(b / 16), HexDigit(b % 16)]
  }

  function Escape(o: seq<Octet>): (s: Str)
    ensures |s| == 3 * |o|
  {
    if |o| == 0 then [] else EscapeOctet(o[0]) + Escape(o[1..])
  }

  /** The octet escaped at a position, if there is one. */
  function OctetAt(s: Str, k: nat): Option<Octet> {
    if k + 3 <= |s| && s[k] == PERCENT && HexValue(s[k + 1]).Some? && HexValue(s[k + 2]).Some?
    then Some(HexValue(s[k + 1]).value * 16 + HexValue(s[k + 2]).value)
    else None
  }

  /** The next `n` escaped octets, all or nothing. */
  function OctetsAt(s: Str, n: nat): (r: Option<seq<Octet>>)
    ensures r.Some? ==> |r.value| == n && 3 * n <= |s|
  {
    if n == 0 then Some([])
    else
      match OctetAt(s, 0)
      case None => None
      case Some(b) =>
        match OctetsAt(s[3..], n - 1)
        case None => None
        case Some(rest) => Some([b] + rest)
  }

  lemma EscapedOctet(b: Octet, rest: Str)
    ensures OctetAt(EscapeOctet(b) + rest, 0) == Some(b)
  {
    var s := EscapeOctet(b) + rest;
    assert s[0] == PERCENT && s[1] == HexDigit(b / 16) && s[2] == HexDigit(b % 16);
    assert b == b / 16 * 16 + b % 16;
  }

  lemma {:induction false} EscapedOctets(o: seq<Octet>, rest: Str)
    ensures OctetsAt(Escape(o) + rest, |o|) == Some(o)
  {
    if |o| > 0 {
      var s := Escape(o) + rest;
      assert s == EscapeOctet(o[0]) + (Escape(o[1..]) + rest);
      EscapedOctet(o[0], Escape(o[1..]) + rest);
      assert s[3..] == Escape(o[1..]) + rest;
      EscapedOctets(o[1..], rest);
      assert [o[0]] + o[1..] == o;
    }
  }

  // ---------------------------------------------------------------- the two functions

  /** Letters, digits and - _ . ! ~ * ' ( ) stand for themselves. */
  predicate Unreserved(u: int) {
    || 48 <= u <= 57 || 65 <= u <= 90 || 97 <= u <= 122
    || u == 45 || u == 95 || u == 46 || u == 33 || u == 126 || u == 42 || u == 39 || u == 40 || u == 41
  }

  lemma UnreservedIff(c: char)
    ensures Unreserved(c as int)
       <==> 'A' <= c <= 'Z' || 'a' <= c <= 'z' || '0' <= c <= '9' || c in "-_.!~*'()"
  {
    var marks := "-_.!~*'()";
    assert forall i :: 0 <= i < |marks| ==>
      marks[i] == '-' || marks[i] == '_' || marks[i] == '.' || marks[i] == '!' || marks[i] == '~' || marks[i] == '*'
      || marks[i] == '\'' || marks[i] == '(' || marks[i] == ')';
    assert marks[0] == '-' && marks[1] == '_' && marks[2] == '.' && marks[3] == '!' && marks[4] == '~'
        && marks[5] == '*' && marks[6] == '\'' && marks[7] == '(' && marks[8] == ')';
  }

  function Prepend(a: Str, r: Option<Str>): Option<Str> {
    match r case None => None case Some(s) => Some(a + s)
  }

  /** `encodeURIComponent`; None is the URIError for a lone surrogate. */
  function Encode(s: Str): Option<Str> {
    if |s| == 0 then Some([])
    else if Unreserved(s[0]) then Prepend([s[0]], Encode(s[1..]))
    else
      match FirstPoint(s)
      case None => None
      case Some((cp, n)) => Prepend(Escape(Utf8(cp)), Encode(s[n..]))
  }

  /** One escape sequence at the start of a string: its text and the rest of the string. */
  function DecodeEscape(s: Str): (r: Option<(Str, Str)>)
    ensures r.Some? ==> |r.value.1| < |s|
  {
    match OctetAt(s, 0)
    case None => None
    case Some(b) =>
      var n := Announced(b);
      if n == 0 then None
      else
        match OctetsAt(s, n)
        case None => None
        case Some(o) =>
          OctetsStart(s, n);
          match Utf8Point(o)
          case None => None
          case Some(cp) => Some((UnitsOf(cp), s[3 * n..]))
  }

  lemma OctetsStart(s: Str, n: nat)
    requires n > 0 && OctetsAt(s, n).Some?
    ensures OctetAt(s, 0) == Some(OctetsAt(s, n).value[0])
  {
  }

  /** `decodeURIComponent`; None is the URIError for a malformed escape. */
  function Decode(s: Str): Option<Str>
    decreases |s|
  {
    if |s| == 0 then Some([])
    else if s[0] != PERCENT then Prepend([s[0]], Decode(s[1..]))
    else
      match DecodeEscape(s)
      case None => None
      case Some((text, rest)) => Prepend(text, Decode(rest))
  }

  lemma UnitsOfFirstPoint(s: Str)
    requires |s| > 0 && FirstPoint(s).Some?
    ensures UnitsOf(FirstPoint(s).value.0) == s[..FirstPoint(s).value.1]
  {
  }

  lemma DecodeEscaped(cp: int, rest: Str)
    requires Scalar(cp)
    ensures DecodeEscape(Escape(Utf8(cp)) + rest) == Some((UnitsOf(cp), rest))
    ensures (Escape(Utf8(cp)) + rest)[0] == PERCENT
  {
    hide UnitsOf, Utf8, Utf8Point;
    var o := Utf8(cp);
    var s := Escape(o) + rest;
    EscapedOctets(o, rest);
    OctetsStart(s, |o|);
    Utf8RoundTrip(cp);
    assert s[3 * |o|..] == rest;
  }

  /** Decoding what was encoded gives the string back. */
  lemma {:induction false} DecodeInvertsEncode(s: Str)
    requires Encode(s).Some?
    ensures Decode(Encode(s).value) == Some(s)
    decreases |s|
  {
    hide DecodeEscape, Utf8, UnitsOf, FirstPoint;
    if |s| > 0 {
      if Unreserved(s[0]) {
        DecodeInvertsEncode(s[1..]);
        var e := Encode(s[1..]).value;
        assert ([s[0]] + e)[1..] == e;
        assert [s[0]] + s[1..] == s;
      } else {
        var (cp, n) := FirstPoint(s).value;
        DecodeInvertsEncode(s[n..]);
        DecodeEscaped(cp, Encode(s[n..]).value);
        UnitsOfFirstPoint(s);
        assert s[..n] + s[n..] == s;
      }
    }
  }

  /** Encoding fails exactly on strings with a lone surrogate. */
  lemma {:induction false} EncodeDefinedIff(s: Str)
    ensures Encode(s).Some? <==> WellFormed(s)
    decreases |s|
  {
    if |s| > 0 {
      if Unreserved(s[0]) {
        EncodeDefinedIff(s[1..]);
      } else if FirstPoint(s).Some? {
        EncodeDefinedIff(s[FirstPoint(s).value.1..]);
      }
    }
  }

  /** An encoded string holds only unreserved characters and percent signs. */
  lemma {:induction false} EncodedAlphabet(s: Str)
    requires Encode(s).Some?
    ensures forall i :: 0 <= i < |Encode(s).value| ==> Unreserved(Encode(s).value[i]) || Encode(s).value[i] == PERCENT
    decreases |s|
  {
    hide Utf8, FirstPoint;
    if |s| > 0 {
      if Unreserved(s[0]) {
        EncodedAlphabet(s[1..]);
      } else {
        var (cp, n) := FirstPoint(s).value;
        EncodedAlphabet(s[n..]);
        EscapedAlphabet(Utf8(cp));
      }
    }
  }

  lemma {:induction false} EscapedAlphabet(o: seq<Octet>)
    ensures forall i :: 0 <= i < |Escape(o)| ==> Unreserved(Escape(o)[i]) || Escape(o)[i] == PERCENT
  {
    if |o| > 0 {
      EscapedAlphabet(o[1..]);
    }
  }

  /** Every percent sign starts an escape of two upper-case hexadecimal digits. */
  ghost predicate EscapesWhole(s: Str) {
    forall i :: 0 <= i < |s| && s[i] == PERCENT ==> i + 2 < |s| && UpperHex(s[i + 1]) && UpperHex(s[i + 2])
  }

  predicate UpperHex(u: int) {
    '0' as int <= u <= '9' as int || 'A' as int <= u <= 'F' as int
  }

  lemma WholeConcat(a: Str, b: Str)
    requires EscapesWhole(a) && EscapesWhole(b)
    ensures EscapesWhole(a + b)
  {
    var s := a + b;
    forall i | 0 <= i < |s| && s[i] == PERCENT
      ensures i + 2 < |s| && UpperHex(s[i + 1]) && UpperHex(s[i + 2])
    {
      if i < |a| {
        assert a[i] == PERCENT && s[i + 1] == a[i + 1] && s[i + 2] == a[i + 2];
      } else {
        assert b[i - |a|] == PERCENT;
      }
    }
  }

  lemma {:induction false} OctetsAreWhole(o: seq<Octet>)
    ensures EscapesWhole(Escape(o))
  {
    if |o| > 0 {
      OctetsAreWhole(o[1..]);
      WholeConcat(EscapeOctet(o[0]), Escape(o[1..]));
    }
  }

  /** An encoded string is made of characters that stand for themselves and whole escapes, and text of such characters
      alone is not changed. */
  lemma {:induction false} EncodedIsWhole(s: Str)
    ensures Encode(s).Some? ==> EscapesWhole(Encode(s).value)
    ensures (forall i :: 0 <= i < |s| ==> Unreserved(s[i])) ==> Encode(s) == Some(s)
    decreases |s|
  {
    hide Utf8, FirstPoint, EscapesWhole, Escape;
    if |s| == 0 {
      NothingIsWhole();
    } else if Unreserved(s[0]) {
      EncodedIsWhole(s[1..]);
      assert [s[0]] + s[1..] == s;
      if Encode(s[1..]).Some? {
        OneIsWhole(s[0]);
        WholeConcat([s[0]], Encode(s[1..]).value);
      }
    } else if FirstPoint(s).Some? {
      var (cp, n) := FirstPoint(s).value;
      EncodedIsWhole(s[n..]);
      OctetsAreWhole(Utf8(cp));
      if Encode(s[n..]).Some? {
        WholeConcat(Escape(Utf8(cp)), Encode(s[n..]).value);
      }
    }
  }

  lemma NothingIsWhole()
    ensures EscapesWhole([])
  {
  }

  lemma OneIsWhole(u: CodeUnit)
    requires Unreserved(u)
    ensures EscapesWhole([u])
  {
  }

  /** The units of an ASCII text. */
  function Text(s: string): (u: Str)
    requires forall i :: 0 <= i < |s| ==> s[i] as int < 0x80
    ensures |u| == |s| && forall i :: 0 <= i < |u| ==> u[i] == s[i] as int
  {
    seq(|s|, i requires 0 <= i < |s| => s[i] as int)
  }

  const HEX := "0123456789ABCDEF"

  /** An octet in hexadecimal behind its percent sign. */
  ghost predicate Shows(s: string, k: nat, b: Octet)
    requires 3 * k + 2 < |s|
  {
    s[3 * k] == '%' && s[3 * k + 1] == HEX[b / 16] && s[3 * k + 2] == HEX[b % 16]
  }

  lemma HexDigitIs(n: nat)
    requires n < 16
    ensures HexDigit(n) == HEX[n] as int
  {
    assert HEX[0] == '0' && HEX[1] == '1' && HEX[2] == '2' && HEX[3] == '3' && HEX[4] == '4' && HEX[5] == '5'
        && HEX[6] == '6' && HEX[7] == '7' && HEX[8] == '8' && HEX[9] == '9' && HEX[10] == 'A' && HEX[11] == 'B'
        && HEX[12] == 'C' && HEX[13] == 'D' && HEX[14] == 'E' && HEX[15] == 'F';
  }

  /** Octets are escaped one after the other, in upper-case hexadecimal. */
  lemma {:induction false} EscapeShows(o: seq<Octet>, k: nat)
    requires k < |o|
    ensures var s := Escape(o);
            s[3 * k] == '%' as int && s[3 * k + 1] == HEX[o[k] / 16] as int && s[3 * k + 2] == HEX[o[k] % 16] as int
  {
    hide HEX;
    if k == 0 {
      HexDigitIs(o[0] / 16);
      HexDigitIs(o[0] % 16);
    } else {
      EscapeShows(o[1..], k - 1);
      assert Escape(o) == EscapeOctet(o[0]) + Escape(o[1..]);
    }
  }

  lemma OneCharacter(s: Str, cp: int)
    requires |s| > 0 && !Unreserved(s[0]) && FirstPoint(s) == Some((cp, |s|))
    ensures Encode(s) == Some(Escape(Utf8(cp)))
  {
    hide Utf8, Escape;
    assert s[|s|..] == [];
    assert Encode([]) == Some([]);
    assert Escape(Utf8(cp)) + [] == Escape(Utf8(cp));
  }

  lemma TextAt(o: seq<Octet>, text: string, k: nat, i: nat)
    requires k < |o| && |text| == 3 * |o| && Shows(text, k, o[k]) && 3 * k <= i < 3 * k + 3
    ensures Escape(o)[i] == text[i] as int
  {
    hide Escape, HEX;
    EscapeShows(o, k);
    assert i == 3 * k || i == 3 * k + 1 || i == 3 * k + 2;
  }

  lemma CharacterEncodes(s: Str, cp: int, o: seq<Octet>, text: string)
    requires |s| > 0 && !Unreserved(s[0]) && FirstPoint(s) == Some((cp, |s|)) && Utf8(cp) == o
    requires |text| == 3 * |o| && (forall k :: 0 <= k < |o| ==> Shows(text, k, o[k]))
    requires forall i :: 0 <= i < |text| ==> text[i] as int < 0x80
    ensures Encode(s) == Some(Text(text))
  {
    hide Utf8, Escape, Shows, FirstPoint, Encode;
    OneCharacter(s, cp);
    forall i | 0 <= i < |text|
      ensures Escape(o)[i] == Text(text)[i]
    {
      TextAt(o, text, i / 3, i);
    }
    assert Escape(o) == Text(text);
  }

  /** One character of two, three and four octets each: an e with an acute accent, the euro sign and a face, which is
      a surrogate pair. */
  lemma EncodedExamples()
    ensures Encode([0xE9]) == Some(Text("%C3%A9"))
    ensures Encode([0x20AC]) == Some(Text("%E2%82%AC"))
    ensures Encode([0xD83D, 0xDE00]) == Some(Text("%F0%9F%98%80"))
  {
    hide Encode, Escape;
    CharacterEncodes([0xE9], 0xE9, [0xC3, 0xA9], "%C3%A9");
    CharacterEncodes([0x20AC], 0x20AC, [0xE2, 0x82, 0xAC], "%E2%82%AC");
    CharacterEncodes([0xD83D, 0xDE00], 0x1F600, [0xF0, 0x9F, 0x98, 0x80], "%F0%9F%98%80");
  }
}
