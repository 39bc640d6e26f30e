/**
 `encodeURIComponent` and `decodeURIComponent` (sections 19.2.6.4 and 19.2.6.2 of ECMA-262): percent-encoded
 UTF-8 as section 2.1 of RFC 3986 and section 3 of RFC 3629 lay it out.
 */
module UriComponents {
  import opened Options
  import opened JsStrings

  const PERCENT: Unit := 0x25

  predicate IsSurrogate(c: int) { 0xD800 <= c < 0xE000 }

  /** A code point with a UTF-8 form. */
  type Scalar = c: int | 0 <= c < 0x11_0000 && !(0xD800 <= c < 0xE000)

  type Byte = b: int | 0 <= b < 0x100

  /** `A-Z a-z 0-9 - _ . ! ~ * ' ( )` */
  predicate IsUnreserved(c: int) {
    || 0x41 <= c <= 0x5A || 0x61 <= c <= 0x7A || 0x30 <= c <= 0x39
    || c in {0x2D, 0x5F, 0x2E, 0x21, 0x7E, 0x2A, 0x27, 0x28, 0x29}
  }

  /** Letters, digits and nine marks. */
  lemma UnreservedMeaning(c: char)
    ensures IsUnreserved(c as int)
            <==> 'A' <= c <= 'Z' || 'a' <= c <= 'z' || '0' <= c <= '9' || c in "-_.!~*'()"
  {
  }

  function Utf8(c: Scalar): (bytes: seq<Byte>)
    ensures 1 <= |bytes| <= 4
  {
    if c < 0x80 then [c]
    else if c < 0x800 then [0xC0 + c / 0x40, 0x80 + c % 0x40]
    else if c < 0x1_0000 then [0xE0 + c / 0x1000, 0x80 + c / 0x40 % 0x40, 0x80 + c % 0x40]
    else [0xF0 + c / 0x4_0000, 0x80 + c / 0x1000 % 0x40, 0x80 + c / 0x40 % 0x40, 0x80 + c % 0x40]
  }

  function UpperHex(d: int): Unit
    requires 0 <= d < 16
  {
    if d < 10 then 0x30 + d else 0x41 + d - 10
  }

  function PercentByte(b: Byte): JsString { [PERCENT, UpperHex(b / 16), UpperHex(b % 16)] }

  function PercentBytes(bytes: seq<Byte>): (s: JsString)
    ensures |s| == 3 * |bytes|
  {
    if bytes == [] then [] else PercentByte(bytes[0]) + PercentBytes(bytes[1..])
  }

  function Escape(c: Scalar): (s: JsString)
    ensures s != []
  {
    if IsUnreserved(c) then [c] else PercentBytes(Utf8(c))
  }

  /** Fails, as the original throws, at a surrogate without its partner. */
  function EncodePoints(p: Text): Option<JsString> {
    if p == [] then Some([])
    else if IsSurrogate(p[0]) then None
    else
      match EncodePoints(p[1..])
      case None => None
      case Some(rest) => Some(Escape(p[0]) + rest)
  }

  function EncodeComponent(s: JsString): Option<JsString> { EncodePoints(CodePoints(s)) }

  predicate IsHex(u: int) { 0x30 <= u <= 0x39 || 0x41 <= u <= 0x46 || 0x61 <= u <= 0x66 }

  function HexValue(u: int): (d: int)
    requires IsHex(u)
    ensures 0 <= d < 16
  {
    if u <= 0x39 then u - 0x30 else if u <= 0x46 then u - 0x41 + 10 else u - 0x61 + 10
  }

  /** The byte of a `%XX` escape at a position. */
  function ByteAt(t: JsString, k: nat): Option<Byte> {
    if k + 2 < |t| && t[k] == PERCENT && IsHex(t[k + 1]) && IsHex(t[k + 2])
    then Some(16 * HexValue(t[k + 1]) + HexValue(t[k + 2]))
    else None
  }

  function ContinuationAt(t: JsString, k: nat): Option<int> {
    match ByteAt(t, k)
    case Some(b) => if 0x80 <= b < 0xC0 then Some(b - 0x80) else None
    case None => None
  }

  /** A scalar and how many bytes spell it. */
  datatype Spelled = Spelled(c: Scalar, bytes: nat)

  /** Neither overlong, nor past the last code point, nor a surrogate. */
  function Checked(c: int, bytes: nat, least: int): Option<Spelled> {
    if least <= c < 0x11_0000 && !IsSurrogate(c) && 0 <= c then Some(Spelled(c, bytes)) else None
  }

  /** The code point whose escapes start the text. */
  function ReadEscape(t: JsString): Option<Spelled> {
    match ByteAt(t, 0)
    case None => None
    case Some(b) =>
      if b < 0x80 then Some(Spelled(b, 1))
      else
        var one, two, three := ContinuationAt(t, 3), ContinuationAt(t, 6), ContinuationAt(t, 9);
        if 0xC0 <= b < 0xE0 && one.Some? then Checked((b - 0xC0) * 0x40 + one.value, 2, 0x80)
        else if 0xE0 <= b < 0xF0 && one.Some? && two.Some? then
          Checked((b - 0xE0) * 0x1000 + one.value * 0x40 + two.value, 3, 0x800)
        else if 0xF0 <= b < 0xF8 && one.Some? && two.Some? && three.Some? then
          Checked((b - 0xF0) * 0x4_0000 + one.value * 0x1000 + two.value * 0x40 + three.value, 4, 0x1_0000)
        else None
  }

  /** Fails, as the original throws, at an escape that spells no code point. */
  function DecodeComponent(t: JsString): Option<JsString>
    decreases |t|
  {
    if t == [] then Some([])
    else if t[0] != PERCENT then
      match DecodeComponent(t[1..])
      case None => None
      case Some(rest) => Some([t[0]] + rest)
    else
      match ReadEscape(t)
      case None => None
      case Some(read) =>
        ReadFits(t);
        match DecodeComponent(t[3 * read.bytes..])
        case None => None
        case Some(rest) => Some(UnitsOf(read.c) + rest)
  }

  lemma ReadFits(t: JsString)
    ensures ReadEscape(t).Some? ==> 1 <= ReadEscape(t).value.bytes && 3 * ReadEscape(t).value.bytes <= |t|
  {
  }

  // ----- The round trip.

  lemma {:induction false} PercentBytesAt(bytes: seq<Byte>, rest: JsString, k: nat)
    requires k < |bytes|
    ensures ByteAt(PercentBytes(bytes) + rest, 3 * k) == Some(bytes[k])
    decreases k
  {
    var t := PercentBytes(bytes) + rest;
    var tail := PercentBytes(bytes[1..]) + rest;
    assert t == PercentByte(bytes[0]) + tail;
    if k > 0 {
      PercentBytesAt(bytes[1..], rest, k - 1);
      assert t[3 * k] == tail[3 * (k - 1)] && t[3 * k + 1] == tail[3 * (k - 1) + 1]
             && t[3 * k + 2] == tail[3 * (k - 1) + 2];
    }
  }

  lemma EscapedBytes(bytes: seq<Byte>, rest: JsString)
    requires 1 <= |bytes| <= 4
    ensures var t := PercentBytes(bytes) + rest;
            && ByteAt(t, 0) == Some(bytes[0])
            && (|bytes| > 1 ==> ByteAt(t, 3) == Some(bytes[1]))
            && (|bytes| > 2 ==> ByteAt(t, 6) == Some(bytes[2]))
            && (|bytes| > 3 ==> ByteAt(t, 9) == Some(bytes[3]))
  {
    PercentBytesAt(bytes, rest, 0);
    if |bytes| > 1 { PercentBytesAt(bytes, rest, 1); }
    if |bytes| > 2 { PercentBytesAt(bytes, rest, 2); }
    if |bytes| > 3 { PercentBytesAt(bytes, rest, 3); }
  }

  lemma SixBitGroups(c: nat)
    ensures c == c / 0x40 * 0x40 + c % 0x40
    ensures c / 0x40 == c / 0x1000 * 0x40 + c / 0x40 % 0x40
    ensures c / 0x1000 == c / 0x4_0000 * 0x40 + c / 0x1000 % 0x40
  {
  }

  lemma ReadOneOrTwo(c: Scalar, t: JsString)
    requires c < 0x800
    requires ByteAt(t, 0) == Some(Utf8(c)[0]) && (c >= 0x80 ==> ByteAt(t, 3) == Some(Utf8(c)[1]))
    ensures ReadEscape(t) == Some(Spelled(c, |Utf8(c)|))
  {
    SixBitGroups(c);
  }

  lemma ReadThree(c: Scalar, t: JsString)
    requires 0x800 <= c < 0x1_0000
    requires ByteAt(t, 0) == Some(Utf8(c)[0]) && ByteAt(t, 3) == Some(Utf8(c)[1]) && ByteAt(t, 6) == Some(Utf8(c)[2])
    ensures ReadEscape(t) == Some(Spelled(c, |Utf8(c)|))
  {
    SixBitGroups(c);
    assert c / 0x1000 < 0x10;
  }

  lemma ReadFour(c: Scalar, t: JsString)
    requires 0x1_0000 <= c
    requires ByteAt(t, 0) == Some(Utf8(c)[0]) && ByteAt(t, 3) == Some(Utf8(c)[1])
    requires ByteAt(t, 6) == Some(Utf8(c)[2]) && ByteAt(t, 9) == Some(Utf8(c)[3])
    ensures ReadEscape(t) == Some(Spelled(c, |Utf8(c)|))
  {
    SixBitGroups(c);
    assert c / 0x4_0000 < 0x8;
  }

  lemma ReadUtf8(c: Scalar, rest: JsString)
    ensures ReadEscape(PercentBytes(Utf8(c)) + rest) == Some(Spelled(c, |Utf8(c)|))
  {
    EscapedBytes(Utf8(c), rest);
    var t := PercentBytes(Utf8(c)) + rest;
    if c < 0x800 {
      ReadOneOrTwo(c, t);
    } else if c < 0x1_0000 {
      ReadThree(c, t);
    } else {
      ReadFour(c, t);
    }
  }

  lemma DecodeEscape(c: Scalar, rest: JsString)
    ensures DecodeComponent(Escape(c) + rest)
            == match DecodeComponent(rest) { case None => None case Some(s) => Some(UnitsOf(c) + s) }
  {
    var t := Escape(c) + rest;
    if IsUnreserved(c) {
      assert t[1..] == rest;
    } else {
      ReadUtf8(c, rest);
      assert t[0] == PercentByte(Utf8(c)[0])[0];
      assert t[3 * |Utf8(c)|..] == rest;
    }
  }

  lemma {:induction false} DecodeEncodedPoints(p: Text)
    requires EncodePoints(p).Some?
    ensures DecodeComponent(EncodePoints(p).value) == Some(Encode(p))
  {
    if p != [] {
      DecodeEncodedPoints(p[1..]);
      DecodeEscape(p[0], EncodePoints(p[1..]).value);
    }
  }

  /** Decoding undoes encoding on every string that can be encoded. */
  lemma DecodeEncoded(s: JsString)
    requires EncodeComponent(s).Some?
    ensures DecodeComponent(EncodeComponent(s).value) == Some(s)
  {
    DecodeEncodedPoints(CodePoints(s));
    EncodeCodePoints(s);
  }

  // ----- What decoding reads, encoded by itself or not.

  /** The digits, in either case. */
  predicate IsHexOf(u: Unit, d: int) {
    (0 <= d < 10 && u == '0' as int + d) || (10 <= d < 16 && (u == 'A' as int + d - 10 || u == 'a' as int + d - 10))
  }

  lemma HexMeaning(u: Unit)
    ensures IsHex(u) ==> IsHexOf(u, HexValue(u))
    ensures forall d :: IsHexOf(u, d) ==> IsHex(u) && HexValue(u) == d
  {
  }

  /** The escape of a byte at a position. */
  predicate EscapesByte(t: JsString, k: nat, b: Byte) {
    k + 2 < |t| && t[k] == '%' as int && IsHexOf(t[k + 1], b / 16) && IsHexOf(t[k + 2], b % 16)
  }

  lemma ByteAtMeaning(t: JsString, k: nat, b: Byte)
    ensures ByteAt(t, k) == Some(b) <==> EscapesByte(t, k, b)
  {
    if k + 2 < |t| {
      HexMeaning(t[k + 1]);
      HexMeaning(t[k + 2]);
    }
  }

  /** The text starts with the escapes of a code point's UTF-8. */
  predicate StartsWithEscape(t: JsString, c: Scalar) {
    forall k :: 0 <= k < |Utf8(c)| ==> EscapesByte(t, 3 * k, Utf8(c)[k])
  }

  lemma SpelledIsRead(t: JsString, c: Scalar)
    requires StartsWithEscape(t, c)
    ensures ReadEscape(t) == Some(Spelled(c, |Utf8(c)|))
  {
    forall k: nat | k < |Utf8(c)|
      ensures ByteAt(t, 3 * k) == Some(Utf8(c)[k])
    {
      ByteAtMeaning(t, 3 * k, Utf8(c)[k]);
    }
    assert ByteAt(t, 3 * 0) == Some(Utf8(c)[0]);
    if c < 0x800 {
      assert c >= 0x80 ==> ByteAt(t, 3 * 1) == Some(Utf8(c)[1]);
      ReadOneOrTwo(c, t);
    } else if c < 0x1_0000 {
      assert ByteAt(t, 3 * 1) == Some(Utf8(c)[1]) && ByteAt(t, 3 * 2) == Some(Utf8(c)[2]);
      ReadThree(c, t);
    } else {
      assert ByteAt(t, 3 * 1) == Some(Utf8(c)[1]) && ByteAt(t, 3 * 2) == Some(Utf8(c)[2]);
      assert ByteAt(t, 3 * 3) == Some(Utf8(c)[3]);
      ReadFour(c, t);
    }
  }

  lemma LastGroup(a: nat, b: nat)
    requires b < 0x40
    ensures (a * 0x40 + b) / 0x40 == a && (a * 0x40 + b) % 0x40 == b
  {
  }

  lemma TwoGroups(a: nat, b: nat)
    requires a < 0x20 && b < 0x40 && a * 0x40 + b >= 0x80
    ensures Utf8(a * 0x40 + b) == [0xC0 + a, 0x80 + b]
  {
    LastGroup(a, b);
  }

  lemma ThreeGroups(a: nat, b: nat, d: nat)
    requires a < 0x10 && b < 0x40 && d < 0x40
    requires var c := a * 0x1000 + b * 0x40 + d; c >= 0x800 && !IsSurrogate(c)
    ensures Utf8(a * 0x1000 + b * 0x40 + d) == [0xE0 + a, 0x80 + b, 0x80 + d]
  {
    LastGroup(a, b);
    LastGroup(a * 0x40 + b, d);
    SixBitGroups(a * 0x1000 + b * 0x40 + d);
  }

  lemma FourGroups(a: nat, b: nat, d: nat, e: nat)
    requires a < 8 && b < 0x40 && d < 0x40 && e < 0x40
    requires 0x1_0000 <= a * 0x4_0000 + b * 0x1000 + d * 0x40 + e < 0x11_0000
    ensures Utf8(a * 0x4_0000 + b * 0x1000 + d * 0x40 + e) == [0xF0 + a, 0x80 + b, 0x80 + d, 0x80 + e]
  {
    LastGroup(a, b);
    LastGroup(a * 0x40 + b, d);
    LastGroup(a * 0x1000 + b * 0x40 + d, e);
    SixBitGroups(a * 0x4_0000 + b * 0x1000 + d * 0x40 + e);
  }

  lemma TwoRead(t: JsString)
    requires ReadEscape(t).Some? && ReadEscape(t).value.bytes == 2
    ensures var bytes := Utf8(ReadEscape(t).value.c);
            |bytes| == 2 && ByteAt(t, 0) == Some(bytes[0]) && ByteAt(t, 3) == Some(bytes[1])
  {
    TwoGroups(ByteAt(t, 0).value - 0xC0, ContinuationAt(t, 3).value);
  }

  lemma ThreeRead(t: JsString)
    requires ReadEscape(t).Some? && ReadEscape(t).value.bytes == 3
    ensures var bytes := Utf8(ReadEscape(t).value.c);
            |bytes| == 3 && ByteAt(t, 0) == Some(bytes[0]) && ByteAt(t, 3) == Some(bytes[1])
            && ByteAt(t, 6) == Some(bytes[2])
  {
    ThreeGroups(ByteAt(t, 0).value - 0xE0, ContinuationAt(t, 3).value, ContinuationAt(t, 6).value);
  }

  lemma FourRead(t: JsString)
    requires ReadEscape(t).Some? && ReadEscape(t).value.bytes == 4
    ensures var bytes := Utf8(ReadEscape(t).value.c);
            |bytes| == 4 && ByteAt(t, 0) == Some(bytes[0]) && ByteAt(t, 3) == Some(bytes[1])
            && ByteAt(t, 6) == Some(bytes[2]) && ByteAt(t, 9) == Some(bytes[3])
  {
    FourGroups(ByteAt(t, 0).value - 0xF0, ContinuationAt(t, 3).value, ContinuationAt(t, 6).value,
               ContinuationAt(t, 9).value);
  }

  lemma ReadIsSpelled(t: JsString)
    requires ReadEscape(t).Some?
    ensures var Spelled(c, n) := ReadEscape(t).value;
            n == |Utf8(c)| && forall k :: 0 <= k < n ==> ByteAt(t, 3 * k) == Some(Utf8(c)[k])
  {
    var n := ReadEscape(t).value.bytes;
    if n == 2 {
      TwoRead(t);
    } else if n == 3 {
      ThreeRead(t);
    } else if n == 4 {
      FourRead(t);
    }
  }

  /** The code point read is the one whose escapes start the text, if there is one. */
  lemma ReadExactly(t: JsString, c: Scalar, n: nat)
    ensures ReadEscape(t) == Some(Spelled(c, n)) <==> n == |Utf8(c)| && StartsWithEscape(t, c)
  {
    if ReadEscape(t) == Some(Spelled(c, n)) {
      ReadIsSpelled(t);
      forall k: nat | k < n
        ensures EscapesByte(t, 3 * k, Utf8(c)[k])
      {
        ByteAtMeaning(t, 3 * k, Utf8(c)[k]);
      }
    } else if StartsWithEscape(t, c) {
      SpelledIsRead(t, c);
    }
  }

  /** Unit by unit, but that escaped UTF-8, in hexadecimal digits of either case, spells a code point. */
  ghost predicate Spells(t: JsString, s: JsString)
    decreases |t|
  {
    if t == [] then s == []
    else if t[0] != '%' as int then s != [] && s[0] == t[0] && Spells(t[1..], s[1..])
    else
      exists c: Scalar ::
        StartsWithEscape(t, c) && 1 <= 3 * |Utf8(c)| <= |t|
        && UnitsOf(c) <= s && Spells(t[3 * |Utf8(c)|..], s[|UnitsOf(c)|..])
  }

  /** Decoding answers exactly what the text spells, and throws at a text that spells nothing. */
  lemma {:induction false} DecodesExactly(t: JsString, s: JsString)
    ensures DecodeComponent(t) == Some(s) <==> Spells(t, s)
    decreases |t|
  {
    if t != [] && t[0] != PERCENT {
      if s != [] {
        DecodesExactly(t[1..], s[1..]);
        assert s == [s[0]] + s[1..];
      }
      if DecodeComponent(t) == Some(s) {
        assert s[1..] == DecodeComponent(t[1..]).value;
      }
    } else if t != [] {
      if DecodeComponent(t) == Some(s) {
        EscapeDecoded(t, s);
      }
      if Spells(t, s) {
        var c: Scalar :| StartsWithEscape(t, c) && 1 <= 3 * |Utf8(c)| <= |t|
                         && UnitsOf(c) <= s && Spells(t[3 * |Utf8(c)|..], s[|UnitsOf(c)|..]);
        DecodesExactly(t[3 * |Utf8(c)|..], s[|UnitsOf(c)|..]);
        DecodeStep(t, c, s[|UnitsOf(c)|..]);
        assert s == UnitsOf(c) + s[|UnitsOf(c)|..];
      }
    }
  }

  lemma {:induction false} EscapeDecoded(t: JsString, s: JsString)
    requires t != [] && t[0] == PERCENT && DecodeComponent(t) == Some(s)
    ensures Spells(t, s)
    decreases |t|, 0
  {
    var Spelled(c, n) := ReadEscape(t).value;
    ReadFits(t);
    ReadExactly(t, c, n);
    var rest := DecodeComponent(t[3 * n..]).value;
    assert s == UnitsOf(c) + rest && s[|UnitsOf(c)|..] == rest;
    DecodesExactly(t[3 * n..], rest);
  }

  lemma DecodeStep(t: JsString, c: Scalar, rest: JsString)
    requires t != [] && t[0] == PERCENT && StartsWithEscape(t, c) && 3 * |Utf8(c)| <= |t|
    requires DecodeComponent(t[3 * |Utf8(c)|..]) == Some(rest)
    ensures DecodeComponent(t) == Some(UnitsOf(c) + rest)
  {
    ReadExactly(t, c, |Utf8(c)|);
  }

  // ----- Where encoding fails.

  /** A surrogate that pairs with nothing reads as a code point of its own. */
  predicate HasLoneSurrogate(p: Text) {
    exists k :: 0 <= k < |p| && IsSurrogate(p[k])
  }

  /** Encoding fails exactly at lone surrogates. */
  lemma {:induction false} EncodingFails(p: Text)
    ensures EncodePoints(p).None? <==> HasLoneSurrogate(p)
  {
    if p != [] {
      EncodingFails(p[1..]);
      assert forall k :: 1 <= k < |p| ==> p[k] == p[1..][k - 1];
    }
  }

  // ----- What encoded text is made of.

  predicate IsComponentUnit(u: int) { IsUnreserved(u) || u == PERCENT }

  predicate IsComponentText(s: JsString) {
    forall k :: 0 <= k < |s| ==> IsComponentUnit(s[k])
  }

  lemma {:induction false} PercentBytesText(bytes: seq<Byte>)
    ensures IsComponentText(PercentBytes(bytes))
  {
    if bytes != [] {
      PercentBytesText(bytes[1..]);
    }
  }

  /** Nothing but unreserved characters and percent signs, and nothing only for the empty string. */
  lemma {:induction false} EncodedText(p: Text)
    requires EncodePoints(p).Some?
    ensures IsComponentText(EncodePoints(p).value)
    ensures EncodePoints(p).value == [] <==> p == []
  {
    if p != [] {
      EncodedText(p[1..]);
      if !IsUnreserved(p[0]) {
        PercentBytesText(Utf8(p[0]));
      }
    }
  }

  lemma EncodedComponent(s: JsString)
    requires EncodeComponent(s).Some?
    ensures IsComponentText(EncodeComponent(s).value)
    ensures EncodeComponent(s).value == [] <==> s == []
  {
    EncodedText(CodePoints(s));
  }
}
