/**
 Strings as the dashboard's language sees them: sequences of UTF-16 code units, which a `u` regular
 expression and a `for ... of` loop read as code points. A surrogate without its partner is a code point
 of its own.
 */
module JsStrings {
  type Unit = u: int | 0 <= u < 0x1_0000
  type CodePoint = c: int | 0 <= c < 0x11_0000
  type JsString = seq<Unit>
  type Text = seq<CodePoint>

  predicate IsHigh(u: int) { 0xD800 <= u < 0xDC00 }

  predicate IsLow(u: int) { 0xDC00 <= u < 0xE000 }

  /** Neither half of a surrogate pair, nor a code point that needs one. */
  predicate IsPlain(c: int) { 0 <= c < 0xD800 || 0xE000 <= c < 0x1_0000 }

  /** The code points a string iterates as. */
  function CodePoints(s: JsString): Text {
    if s == [] then []
    else if |s| >= 2 && IsHigh(s[0]) && IsLow(s[1]) then
      [0x1_0000 + (s[0] - 0xD800) * 0x400 + (s[1] - 0xDC00)] + CodePoints(s[2..])
    else [s[0]] + CodePoints(s[1..])
  }

  function UnitsOf(c: CodePoint): (s: JsString)
    ensures 1 <= |s| <= 2
    ensures IsPlain(c) <==> s == [c] && IsPlain(s[0])
    ensures !IsPlain(c) ==> forall i :: 0 <= i < |s| ==> !IsPlain(s[i])
  {
    if c < 0x1_0000 then [c]
    else [0xD800 + (c - 0x1_0000) / 0x400, 0xDC00 + (c - 0x1_0000) % 0x400]
  }

  function Encode(p: Text): JsString {
    if p == [] then [] else UnitsOf(p[0]) + Encode(p[1..])
  }

  lemma {:induction false} EncodeCodePoints(s: JsString)
    ensures Encode(CodePoints(s)) == s
  {
    if s != [] {
      if |s| >= 2 && IsHigh(s[0]) && IsLow(s[1]) {
        EncodeCodePoints(s[2..]);
        assert s == [s[0], s[1]] + s[2..];
      } else {
        EncodeCodePoints(s[1..]);
      }
    }
  }

  lemma {:induction false} EncodeConcat(p: Text, q: Text)
    ensures Encode(p + q) == Encode(p) + Encode(q)
  {
    if p == [] {
      assert p + q == q;
    } else {
      assert (p + q)[1..] == p[1..] + q;
      EncodeConcat(p[1..], q);
    }
  }

  /** Character codes. */
  function Units(text: string): (units: seq<int>)
    ensures |units| == |text| && forall k :: 0 <= k < |text| ==> units[k] == text[k] as int
  {
    seq(|text|, k requires 0 <= k < |text| => text[k] as int)
  }

  // ----- Searching, on units and on code points alike.

  predicate OccursAt(s: seq<int>, w: seq<int>, i: int) {
    0 <= i && i + |w| <= |s| && s[i..i + |w|] == w
  }

  predicate StartsWith(s: seq<int>, w: seq<int>) { OccursAt(s, w, 0) }

  predicate EndsWith(s: seq<int>, w: seq<int>) { OccursAt(s, w, |s| - |w|) }

  predicate Includes(s: seq<int>, w: seq<int>) {
    exists i :: 0 <= i <= |s| && OccursAt(s, w, i)
  }

  type Components = seq<seq<int>>

  /** Always at least one component; the empty string is one empty component. */
  function Split(s: seq<int>, separator: int): (components: Components)
    ensures components != []
  {
    if s == [] then [[]]
    else
      var rest := Split(s[1..], separator);
      if s[0] == separator then [[]] + rest else [[s[0]] + rest[0]] + rest[1..]
  }

  function Join(components: Components, separator: int): seq<int> {
    if components == [] then []
    else if |components| == 1 then components[0]
    else components[0] + [separator] + Join(components[1..], separator)
  }

  lemma {:induction false} JoinSplit(s: seq<int>, separator: int)
    ensures Join(Split(s, separator), separator) == s
  {
    if s != [] {
      JoinSplit(s[1..], separator);
      var rest := Split(s[1..], separator);
      if s[0] == separator {
        assert ([[]] + rest)[1..] == rest;
      } else if |rest| > 1 {
        assert ([[s[0]] + rest[0]] + rest[1..])[1..] == rest[1..];
      }
    }
  }

  lemma {:induction false} SplitNone(s: seq<int>, separator: int)
    requires separator !in s
    ensures Split(s, separator) == [s]
  {
    if s != [] {
      SplitNone(s[1..], separator);
      assert [s[0]] + s[1..] == s;
    }
  }

  lemma {:induction false} SplitFirst(a: seq<int>, separator: int, b: seq<int>)
    requires separator !in a
    ensures Split(a + [separator] + b, separator) == [a] + Split(b, separator)
    decreases |a|
  {
    var s := a + [separator] + b;
    if a == [] {
      assert s[1..] == b;
    } else {
      assert s[1..] == a[1..] + [separator] + b;
      SplitFirst(a[1..], separator, b);
      assert [a[0]] + a[1..] == a;
    }
  }

  lemma {:induction false} SplitJoin(parts: Components, separator: int)
    requires parts != [] && forall k :: 0 <= k < |parts| ==> separator !in parts[k]
    ensures Split(Join(parts, separator), separator) == parts
  {
    if |parts| == 1 {
      SplitNone(parts[0], separator);
    } else {
      SplitJoin(parts[1..], separator);
      SplitFirst(parts[0], separator, Join(parts[1..], separator));
      assert parts == [parts[0]] + parts[1..];
    }
  }

  // ----- Trimming.

  /** WhiteSpace and LineTerminator of ECMA-262 sections 12.2 and 12.3, as `String.prototype.trim` removes them. */
  predicate IsWhiteSpace(u: int) {
    || 0x09 <= u <= 0x0D || u == 0x20 || u == 0xA0 || u == 0x1680 || 0x2000 <= u <= 0x200A
    || u == 0x2028 || u == 0x2029 || u == 0x202F || u == 0x205F || u == 0x3000 || u == 0xFEFF
  }

  /** White space and line terminators of section 12 of ECMA-262. */
  lemma WhiteSpaceMeaning(u: int)
    ensures IsWhiteSpace(u)
            <==> u in {0x09, 0x0A, 0x0B, 0x0C, 0x0D, 0x20, 0xA0, 0x1680, 0x2000, 0x2001, 0x2002, 0x2003, 0x2004, 0x2005,
                       0x2006, 0x2007, 0x2008, 0x2009, 0x200A, 0x2028, 0x2029, 0x202F, 0x205F, 0x3000, 0xFEFF}
  {
  }

  function TrimStart(s: JsString): JsString {
    if s != [] && IsWhiteSpace(s[0]) then TrimStart(s[1..]) else s
  }

  function TrimEnd(s: JsString): JsString {
    if s != [] && IsWhiteSpace(s[|s| - 1]) then TrimEnd(s[..|s| - 1]) else s
  }

  function Trim(s: JsString): JsString { TrimEnd(TrimStart(s)) }

  /** No surrounding white space. */
  predicate IsTrimmed(s: JsString) {
    s == [] || (!IsWhiteSpace(s[0]) && !IsWhiteSpace(s[|s| - 1]))
  }

  lemma {:induction false} TrimStartShape(s: JsString)
    ensures |TrimStart(s)| <= |s| && (|TrimStart(s)| == |s| ==> TrimStart(s) == s)
    ensures TrimStart(s) == [] || !IsWhiteSpace(TrimStart(s)[0])
    ensures TrimStart(s) == s <==> s == [] || !IsWhiteSpace(s[0])
  {
    if s != [] && IsWhiteSpace(s[0]) {
      TrimStartShape(s[1..]);
    }
  }

  lemma {:induction false} TrimEndShape(s: JsString)
    ensures TrimEnd(s) <= s && (TrimEnd(s) == [] || !IsWhiteSpace(TrimEnd(s)[|TrimEnd(s)| - 1]))
    ensures TrimEnd(s) == s <==> s == [] || !IsWhiteSpace(s[|s| - 1])
  {
    if s != [] && IsWhiteSpace(s[|s| - 1]) {
      TrimEndShape(s[..|s| - 1]);
    }
  }

  /** What `trim` leaves is trimmed, and it leaves trimmed strings alone. */
  lemma TrimShape(s: JsString)
    ensures IsTrimmed(Trim(s)) && |Trim(s)| <= |s| && (|Trim(s)| == |s| ==> Trim(s) == s)
    ensures Trim(s) == s <==> IsTrimmed(s)
  {
    TrimStartShape(s);
    TrimEndShape(TrimStart(s));
  }

  predicate AllWhite(s: JsString) {
    forall k :: 0 <= k < |s| ==> IsWhiteSpace(s[k])
  }

  /** Nothing but white space is trimmed, and of it all that surrounds the rest. */
  lemma TrimMeaning(s: JsString) returns (before: JsString, after: JsString)
    ensures s == before + Trim(s) + after && AllWhite(before) && AllWhite(after) && IsTrimmed(Trim(s))
  {
    before := TrimmedStart(s);
    after := TrimmedEnd(TrimStart(s));
    TrimShape(s);
  }

  lemma {:induction false} TrimmedStart(s: JsString) returns (before: JsString)
    ensures s == before + TrimStart(s) && AllWhite(before)
  {
    before := [];
    if s != [] && IsWhiteSpace(s[0]) {
      before := TrimmedStart(s[1..]);
      before := [s[0]] + before;
    }
  }

  lemma {:induction false} TrimmedEnd(s: JsString) returns (after: JsString)
    ensures s == TrimEnd(s) + after && AllWhite(after)
    decreases |s|
  {
    after := [];
    if s != [] && IsWhiteSpace(s[|s| - 1]) {
      after := TrimmedEnd(s[..|s| - 1]);
      after := after + [s[|s| - 1]];
    }
  }

  /** A code point past the first plane is read of its two units, whatever follows. */
  lemma PairRead(c: CodePoint, rest: JsString)
    requires c >= 0x1_0000
    ensures CodePoints(UnitsOf(c) + rest) == [c] + CodePoints(rest)
  {
    var s := UnitsOf(c) + rest;
    assert s[2..] == rest;
  }
}
