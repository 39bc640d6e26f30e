/**
 The cookie that remembers the organization last opened
 (web/src/modules/organizations/presentation/last-organization.ts), against a browser's cookie jar.
 */
module LastOrganization {
  import opened Options
  import opened JsStrings
  import opened UriComponents

  const SEMICOLON: Unit := 0x3B
  const EQUALS: Unit := 0x3D
  const SPACE: JsString := [0x20]

  /** `pallet_last_org` */
  const LAST_ORGANIZATION_COOKIE: JsString :=
    [0x70, 0x61, 0x6C, 0x6C, 0x65, 0x74, 0x5F, 0x6C, 0x61, 0x73, 0x74, 0x5F, 0x6F, 0x72, 0x67]
  /** `Max-Age=31536000` */
  const ONE_YEAR: JsString :=
    [0x4D, 0x61, 0x78, 0x2D, 0x41, 0x67, 0x65, 0x3D, 0x33, 0x31, 0x35, 0x33, 0x36, 0x30, 0x30, 0x30]
  /** `Max-Age=0` */
  const EXPIRED: JsString := [0x4D, 0x61, 0x78, 0x2D, 0x41, 0x67, 0x65, 0x3D, 0x30]
  /** `Path=/` */
  const PATH: JsString := [0x50, 0x61, 0x74, 0x68, 0x3D, 0x2F]
  /** `SameSite=Lax` */
  const SAME_SITE: JsString := [0x53, 0x61, 0x6D, 0x65, 0x53, 0x69, 0x74, 0x65, 0x3D, 0x4C, 0x61, 0x78]
  /** `Secure` */
  const SECURE: JsString := [0x53, 0x65, 0x63, 0x75, 0x72, 0x65]

  // ----- Splitting and joining strings gives strings.

  lemma {:induction false} SplitUnits(s: JsString, separator: Unit)
    ensures forall k, i :: 0 <= k < |Split(s, separator)| && 0 <= i < |Split(s, separator)[k]|
              ==> 0 <= Split(s, separator)[k][i] < 0x1_0000
  {
    if s != [] {
      SplitUnits(s[1..], separator);
    }
  }

  lemma {:induction false} JoinUnits(parts: seq<JsString>, separator: Unit)
    ensures forall i :: 0 <= i < |Join(parts, separator)| ==> 0 <= Join(parts, separator)[i] < 0x1_0000
  {
    if |parts| > 1 {
      JoinUnits(parts[1..], separator);
    }
  }

  function SplitAt(s: JsString, separator: Unit): (parts: seq<JsString>)
    ensures parts == Split(s, separator)
  {
    SplitUnits(s, separator);
    Split(s, separator)
  }

  function JoinWith(parts: seq<JsString>, separator: Unit): (s: JsString)
    ensures s == Join(parts, separator)
  {
    JoinUnits(parts, separator);
    Join(parts, separator)
  }

  /** Parts with `; ` between. */
  function Listed(parts: seq<JsString>): JsString { JoinWith(LedBySpace(parts), SEMICOLON) }

  function LedBySpace(parts: seq<JsString>): (spaced: seq<JsString>)
    ensures |spaced| == |parts|
    ensures forall k :: 0 <= k < |parts| ==> spaced[k] == (if k == 0 then [] else SPACE) + parts[k]
  {
    seq(|parts|, k requires 0 <= k < |parts| => (if k == 0 then [] else SPACE) + parts[k])
  }

  function Attributes(maxAge: JsString, secure: bool): seq<JsString> {
    [maxAge, PATH, SAME_SITE] + if secure then [SECURE] else []
  }

  function Pair(name: JsString, value: JsString): JsString { name + [EQUALS] + value }

  /** Fails where `encodeURIComponent` throws. */
  function LastOrganizationCookie(orgId: JsString, secure: bool): Option<JsString> {
    match EncodeComponent(orgId)
    case None => None
    case Some(value) => Some(Listed([Pair(LAST_ORGANIZATION_COOKIE, value)] + Attributes(ONE_YEAR, secure)))
  }

  function ClearedLastOrganizationCookie(secure: bool): JsString {
    Listed([Pair(LAST_ORGANIZATION_COOKIE, [])] + Attributes(EXPIRED, secure))
  }

  lemma NameReads()
    ensures LAST_ORGANIZATION_COOKIE + [EQUALS] == Units("pallet_last_org=")
  {
  }

  lemma AgesRead()
    ensures Led(ONE_YEAR) == Units("; Max-Age=31536000") && Led(EXPIRED) == Units("; Max-Age=0")
  {
  }

  lemma OthersRead()
    ensures Led(PATH) == Units("; Path=/") && Led(SAME_SITE) == Units("; SameSite=Lax")
    ensures Led(SECURE) == Units("; Secure")
  {
  }

  /** An attribute as it follows another. */
  function Led(attribute: JsString): JsString { [SEMICOLON] + (SPACE + attribute) }

  function AllLed(attributes: seq<JsString>): JsString {
    if attributes == [] then [] else Led(attributes[0]) + AllLed(attributes[1..])
  }

  lemma AllLedCons(head: JsString, rest: seq<JsString>)
    ensures AllLed([head] + rest) == Led(head) + AllLed(rest)
  {
    assert ([head] + rest)[1..] == rest;
  }

  lemma JoinCons(part: JsString, rest: seq<JsString>)
    requires rest != []
    ensures Join([part] + rest, SEMICOLON) == part + ([SEMICOLON] + Join(rest, SEMICOLON))
  {
    assert ([part] + rest)[1..] == rest;
  }

  lemma LedAllCons(attributes: seq<JsString>)
    requires attributes != []
    ensures LedAll(attributes) == [SPACE + attributes[0]] + LedAll(attributes[1..])
  {
  }

  lemma Associates(a: JsString, b: JsString, c: JsString)
    ensures a + (b + c) == (a + b) + c
  {
  }

  lemma {:induction false} ListedIs(part: JsString, attributes: seq<JsString>)
    ensures Join([part] + LedAll(attributes), SEMICOLON) == part + AllLed(attributes)
    decreases |attributes|
  {
    if attributes == [] {
      assert [part] + LedAll(attributes) == [part];
    } else {
      var head := SPACE + attributes[0];
      LedAllCons(attributes);
      JoinCons(part, [head] + LedAll(attributes[1..]));
      ListedIs(head, attributes[1..]);
      Associates([SEMICOLON], head, AllLed(attributes[1..]));
    }
  }

  function LedAll(attributes: seq<JsString>): (r: seq<JsString>)
    ensures |r| == |attributes| && forall k :: 0 <= k < |r| ==> r[k] == SPACE + attributes[k]
  {
    seq(|attributes|, k requires 0 <= k < |attributes| => SPACE + attributes[k])
  }

  lemma ListedAttributes(part: JsString, maxAge: JsString, secure: bool)
    ensures Listed([part] + Attributes(maxAge, secure))
            == part + (Led(maxAge) + (Led(PATH) + (Led(SAME_SITE) + if secure then Led(SECURE) else [])))
  {
    var attributes := Attributes(maxAge, secure);
    ListedIs(part, attributes);
    assert LedBySpace([part] + attributes) == [part] + LedAll(attributes) by {
      assert [] + part == part;
    }
    var last := if secure then [SECURE] else [];
    assert attributes == [maxAge] + ([PATH] + ([SAME_SITE] + last));
    AllLedCons(maxAge, [PATH] + ([SAME_SITE] + last));
    AllLedCons(PATH, [SAME_SITE] + last);
    AllLedCons(SAME_SITE, last);
    AllLedCons(SECURE, []);
    assert [SECURE] + [] == [SECURE] && Led(SECURE) + [] == Led(SECURE);
  }

  /** The cookie texts, character by character. */
  lemma CookieTexts(orgId: JsString, secure: bool)
    ensures var rest := Units("; Path=/") + (Units("; SameSite=Lax") + if secure then Units("; Secure") else []);
            && ClearedLastOrganizationCookie(secure) == Units("pallet_last_org=") + (Units("; Max-Age=0") + rest)
            && (EncodeComponent(orgId).Some? ==>
                  LastOrganizationCookie(orgId, secure)
                  == Some(Units("pallet_last_org=") + EncodeComponent(orgId).value
                          + (Units("; Max-Age=31536000") + rest)))
  {
    NameReads();
    AgesRead();
    OthersRead();
    ListedAttributes(Pair(LAST_ORGANIZATION_COOKIE, []), EXPIRED, secure);
    if EncodeComponent(orgId).Some? {
      ListedAttributes(Pair(LAST_ORGANIZATION_COOKIE, EncodeComponent(orgId).value), ONE_YEAR, secure);
    }
  }

  /** The first pair with the name decides, even when it cannot be decoded. */
  function RememberedIn(pairs: seq<JsString>): Option<JsString> {
    if pairs == [] then None
    else
      var parts := SplitAt(Trim(pairs[0]), EQUALS);
      if parts[0] != LAST_ORGANIZATION_COOKIE then RememberedIn(pairs[1..])
      else DecodeComponent(JoinWith(parts[1..], EQUALS))
  }

  function RememberedOrganization(cookies: JsString): Option<JsString> { RememberedIn(SplitAt(cookies, SEMICOLON)) }

  // ----- Reading one pair.

  lemma {:induction false} TrimStartPadded(pad: JsString, s: JsString)
    requires AllWhite(pad)
    ensures TrimStart(pad + s) == TrimStart(s)
  {
    if pad == [] {
      assert pad + s == s;
    } else {
      assert (pad + s)[1..] == pad[1..] + s;
      TrimStartPadded(pad[1..], s);
    }
  }

  lemma {:induction false} TrimEndPadded(s: JsString, pad: JsString)
    requires AllWhite(pad)
    ensures TrimEnd(s + pad) == TrimEnd(s)
    decreases |pad|
  {
    if pad == [] {
      assert s + pad == s;
    } else {
      var n := |pad| - 1;
      assert (s + pad)[|s + pad| - 1] == pad[n] && (s + pad)[..|s + pad| - 1] == s + pad[..n];
      TrimEndPadded(s, pad[..n]);
    }
  }

  lemma TrimPadded(before: JsString, s: JsString, after: JsString)
    requires AllWhite(before) && AllWhite(after) && IsTrimmed(s) && s != []
    ensures Trim(before + s + after) == s
  {
    assert before + s + after == before + (s + after);
    TrimStartPadded(before, s + after);
    TrimStartShape(s + after);
    TrimEndPadded(s, after);
    TrimEndShape(s);
  }

  lemma PairParts(name: JsString, value: JsString)
    requires EQUALS !in name
    ensures var parts := SplitAt(Pair(name, value), EQUALS);
            parts[0] == name && JoinWith(parts[1..], EQUALS) == value
  {
    SplitFirst(name, EQUALS, value);
    JoinSplit(value, EQUALS);
  }

  /** What a pair means wherever it stands: decoded when it has the name, passed over otherwise. */
  lemma PairRead(before: JsString, name: JsString, value: JsString, after: JsString, rest: seq<JsString>)
    requires AllWhite(before) && AllWhite(after) && IsTrimmed(Pair(name, value)) && EQUALS !in name
    ensures RememberedIn([before + Pair(name, value) + after] + rest)
            == if name == LAST_ORGANIZATION_COOKIE then DecodeComponent(value) else RememberedIn(rest)
  {
    TrimPadded(before, Pair(name, value), after);
    PairParts(name, value);
    assert ([before + Pair(name, value) + after] + rest)[1..] == rest;
  }

  lemma ComponentUnit(u: int)
    requires IsComponentUnit(u)
    ensures !IsWhiteSpace(u) && u != SEMICOLON && u != EQUALS
  {
  }

  lemma NameIsPlain()
    ensures EQUALS !in LAST_ORGANIZATION_COOKIE && SEMICOLON !in LAST_ORGANIZATION_COOKIE
    ensures !IsWhiteSpace(LAST_ORGANIZATION_COOKIE[0])
  {
  }

  lemma RememberedPair(value: JsString)
    requires IsComponentText(value)
    ensures IsTrimmed(Pair(LAST_ORGANIZATION_COOKIE, value)) && SEMICOLON !in Pair(LAST_ORGANIZATION_COOKIE, value)
    ensures SEMICOLON !in value
  {
    NameIsPlain();
    forall k | 0 <= k < |value|
      ensures !IsWhiteSpace(value[k]) && value[k] != SEMICOLON
    {
      ComponentUnit(value[k]);
    }
  }

  // ----- The printer and the reader.

  /** The name a cookie pair is read under. */
  function NameOf(pair: JsString): JsString { SplitAt(Trim(pair), EQUALS)[0] }

  lemma {:induction false} OthersPassedOver(others: seq<JsString>, rest: seq<JsString>)
    requires forall k :: 0 <= k < |others| ==> NameOf(others[k]) != LAST_ORGANIZATION_COOKIE
    ensures RememberedIn(others + rest) == RememberedIn(rest)
  {
    if others == [] {
      assert others + rest == rest;
    } else {
      assert (others + rest)[1..] == others[1..] + rest;
      OthersPassedOver(others[1..], rest);
    }
  }

  /** The part of a cookie text a browser keeps: up to the first semicolon. */
  function KeptPair(text: JsString): JsString { SplitAt(text, SEMICOLON)[0] }

  lemma ListedFirst(first: JsString, rest: seq<JsString>)
    requires SEMICOLON !in first && forall k :: 0 <= k < |rest| ==> SEMICOLON !in rest[k]
    ensures SplitAt(Listed([first] + rest), SEMICOLON) == LedBySpace([first] + rest)
    ensures KeptPair(Listed([first] + rest)) == first
  {
    var spaced := LedBySpace([first] + rest);
    forall k | 0 <= k < |spaced|
      ensures SEMICOLON !in spaced[k]
    {
      assert spaced[k] == (if k == 0 then [] else SPACE) + ([first] + rest)[k];
    }
    SplitJoin(spaced, SEMICOLON);
  }

  lemma AttributesPlain(maxAge: JsString, secure: bool)
    requires maxAge == ONE_YEAR || maxAge == EXPIRED
    ensures forall k :: 0 <= k < |Attributes(maxAge, secure)| ==> SEMICOLON !in Attributes(maxAge, secure)[k]
  {
  }

  lemma CookieKept(orgId: JsString, secure: bool)
    requires EncodeComponent(orgId).Some?
    ensures KeptPair(LastOrganizationCookie(orgId, secure).value)
            == Pair(LAST_ORGANIZATION_COOKIE, EncodeComponent(orgId).value)
  {
    var value := EncodeComponent(orgId).value;
    EncodedComponent(orgId);
    RememberedPair(value);
    AttributesPlain(ONE_YEAR, secure);
    ListedFirst(Pair(LAST_ORGANIZATION_COOKIE, value), Attributes(ONE_YEAR, secure));
  }

  lemma KeptPairRead(before: JsString, orgId: JsString, after: JsString, later: seq<JsString>)
    requires AllWhite(before) && AllWhite(after) && EncodeComponent(orgId).Some?
    ensures var pair := Pair(LAST_ORGANIZATION_COOKIE, EncodeComponent(orgId).value);
            RememberedIn([before + pair + after] + later) == Some(orgId) && SEMICOLON !in before + pair + after
  {
    var value := EncodeComponent(orgId).value;
    EncodedComponent(orgId);
    RememberedPair(value);
    NameIsPlain();
    PairRead(before, LAST_ORGANIZATION_COOKIE, value, after, later);
    DecodeEncoded(orgId);
  }

  /** No part holds a semicolon, so splitting at semicolons gives them back. */
  predicate AllWhole(pairs: seq<JsString>) {
    forall k :: 0 <= k < |pairs| ==> SEMICOLON !in pairs[k]
  }

  lemma WholeSplit(pairs: seq<JsString>)
    requires AllWhole(pairs) && pairs != []
    ensures SplitAt(JoinWith(pairs, SEMICOLON), SEMICOLON) == pairs
  {
    SplitJoin(pairs, SEMICOLON);
  }

  /**
   What the printer wrote for an organization is read back as that organization, whatever other-named pairs
   come before it and whatever comes after.
   */
  lemma Recovered(others: seq<JsString>, before: JsString, orgId: JsString, secure: bool, after: JsString,
                  later: seq<JsString>)
    requires AllWhole(others) && forall k :: 0 <= k < |others| ==> NameOf(others[k]) != LAST_ORGANIZATION_COOKIE
    requires AllWhite(before) && AllWhite(after) && AllWhole(later) && EncodeComponent(orgId).Some?
    ensures var kept := before + KeptPair(LastOrganizationCookie(orgId, secure).value) + after;
            RememberedOrganization(JoinWith(others + ([kept] + later), SEMICOLON)) == Some(orgId)
  {
    CookieKept(orgId, secure);
    KeptPairRead(before, orgId, after, later);
    var kept := before + Pair(LAST_ORGANIZATION_COOKIE, EncodeComponent(orgId).value) + after;
    OthersPassedOver(others, [kept] + later);
    WholeSplit(others + ([kept] + later));
  }

  // ----- A browser's jar.

  datatype Cookie = Cookie(name: JsString, value: JsString)

  /** Cookies with distinct names, none of which could be taken for two pairs or for another name. */
  ghost predicate ValidJar(jar: seq<Cookie>) {
    && (forall k :: 0 <= k < |jar| ==> ValidCookie(jar[k]))
    && (forall i, k :: 0 <= i < k < |jar| ==> jar[i].name != jar[k].name)
  }

  predicate ValidCookie(c: Cookie) {
    EQUALS !in c.name && SEMICOLON !in c.name && SEMICOLON !in c.value && IsTrimmed(Pair(c.name, c.value))
  }

  function PairsOf(jar: seq<Cookie>, pad: JsString): (pairs: seq<JsString>)
    ensures |pairs| == |jar|
  {
    if jar == [] then []
    else [pad + Pair(jar[0].name, jar[0].value)] + PairsOf(jar[1..], SPACE)
  }

  /** `document.cookie`: section 5.4 of RFC 6265. */
  function Written(jar: seq<Cookie>): JsString { JoinWith(PairsOf(jar, []), SEMICOLON) }

  function Lookup(jar: seq<Cookie>, name: JsString): Option<JsString> {
    if jar == [] then None else if jar[0].name == name then Some(jar[0].value) else Lookup(jar[1..], name)
  }

  /** A cookie in place of the one with its name, or last. */
  function Stored(jar: seq<Cookie>, c: Cookie): seq<Cookie> {
    if jar == [] then [c]
    else if jar[0].name == c.name then [c] + jar[1..]
    else [jar[0]] + Stored(jar[1..], c)
  }

  function Without(jar: seq<Cookie>, name: JsString): seq<Cookie> {
    if jar == [] then []
    else (if jar[0].name == name then [] else [jar[0]]) + Without(jar[1..], name)
  }

  /** Storing a cookie text: sections 5.2 and 5.3 of RFC 6265. */
  function SetCookie(jar: seq<Cookie>, text: JsString): seq<Cookie> {
    var parts := SplitAt(text, SEMICOLON);
    var pair := SplitAt(parts[0], EQUALS);
    if |pair| == 1 || Trim(pair[0]) == [] then jar
    else if exists k :: 1 <= k < |parts| && Trim(parts[k]) == EXPIRED then Without(jar, Trim(pair[0]))
    else Stored(jar, Cookie(Trim(pair[0]), Trim(JoinWith(pair[1..], EQUALS))))
  }

  lemma {:induction false} PairsPlain(jar: seq<Cookie>, pad: JsString)
    requires forall k :: 0 <= k < |jar| ==> ValidCookie(jar[k])
    requires SEMICOLON !in pad
    ensures forall k :: 0 <= k < |PairsOf(jar, pad)| ==> SEMICOLON !in PairsOf(jar, pad)[k]
  {
    if jar != [] {
      PairsPlain(jar[1..], SPACE);
    }
  }

  lemma {:induction false} RememberedInPairs(jar: seq<Cookie>, pad: JsString)
    requires forall k :: 0 <= k < |jar| ==> ValidCookie(jar[k])
    requires AllWhite(pad)
    ensures RememberedIn(PairsOf(jar, pad))
            == match Lookup(jar, LAST_ORGANIZATION_COOKIE) { case None => None case Some(v) => DecodeComponent(v) }
  {
    if jar != [] {
      RememberedInPairs(jar[1..], SPACE);
      PairRead(pad, jar[0].name, jar[0].value, [], PairsOf(jar[1..], SPACE));
      assert pad + Pair(jar[0].name, jar[0].value) + [] == pad + Pair(jar[0].name, jar[0].value);
    }
  }

  /** Reading the document's cookie text decodes the jar's own cookie. */
  lemma RememberedMeaning(jar: seq<Cookie>)
    requires ValidJar(jar)
    ensures RememberedOrganization(Written(jar))
            == match Lookup(jar, LAST_ORGANIZATION_COOKIE) { case None => None case Some(v) => DecodeComponent(v) }
  {
    if jar == [] {
      assert SplitAt([], SEMICOLON) == [[]];
      assert SplitAt([], EQUALS) == [[]];
    } else {
      PairsPlain(jar, []);
      SplitJoin(PairsOf(jar, []), SEMICOLON);
      RememberedInPairs(jar, []);
    }
  }

  // ----- What the two printed texts do to a jar.

  lemma ParsedPair(text: JsString, value: JsString)
    requires IsComponentText(value) && KeptPair(text) == Pair(LAST_ORGANIZATION_COOKIE, value)
    ensures var pair := SplitAt(SplitAt(text, SEMICOLON)[0], EQUALS);
            && |pair| > 1 && Trim(pair[0]) == LAST_ORGANIZATION_COOKIE
            && Trim(JoinWith(pair[1..], EQUALS)) == value
  {
    NameIsPlain();
    PairParts(LAST_ORGANIZATION_COOKIE, value);
    SplitFirst(LAST_ORGANIZATION_COOKIE, EQUALS, value);
    TrimShape(LAST_ORGANIZATION_COOKIE);
    forall k | 0 <= k < |value|
      ensures !IsWhiteSpace(value[k])
    {
      ComponentUnit(value[k]);
    }
    TrimShape(value);
  }

  lemma AttributeTrimmed(maxAge: JsString, secure: bool, k: nat)
    requires maxAge == ONE_YEAR || maxAge == EXPIRED
    requires k < |Attributes(maxAge, secure)|
    ensures Trim(SPACE + Attributes(maxAge, secure)[k]) == EXPIRED <==> k == 0 && maxAge == EXPIRED
  {
    var attribute := Attributes(maxAge, secure)[k];
    TrimPadded(SPACE, attribute, []);
    assert SPACE + attribute + [] == SPACE + attribute;
    assert attribute == EXPIRED <==> k == 0 && maxAge == EXPIRED by {
      assert |attribute| == |EXPIRED| ==> k == 0;
    }
  }

  /** Only the cleared text expires its cookie. */
  lemma ExpiryMeaning(value: JsString, maxAge: JsString, secure: bool)
    requires IsComponentText(value) && (maxAge == ONE_YEAR || maxAge == EXPIRED)
    ensures var text := Listed([Pair(LAST_ORGANIZATION_COOKIE, value)] + Attributes(maxAge, secure));
            var parts := SplitAt(text, SEMICOLON);
            && KeptPair(text) == Pair(LAST_ORGANIZATION_COOKIE, value)
            && ((exists k :: 1 <= k < |parts| && Trim(parts[k]) == EXPIRED) <==> maxAge == EXPIRED)
  {
    var pair, attributes := Pair(LAST_ORGANIZATION_COOKIE, value), Attributes(maxAge, secure);
    RememberedPair(value);
    AttributesPlain(maxAge, secure);
    ListedFirst(pair, attributes);
    var parts := LedBySpace([pair] + attributes);
    forall k | 1 <= k < |parts|
      ensures Trim(parts[k]) == EXPIRED <==> k == 1 && maxAge == EXPIRED
    {
      assert parts[k] == SPACE + attributes[k - 1];
      AttributeTrimmed(maxAge, secure, k - 1);
    }
    assert 1 < |parts| && (maxAge == EXPIRED ==> Trim(parts[1]) == EXPIRED);
  }

  /** The printed text stores the encoded organization under the name. */
  lemma CookieStores(jar: seq<Cookie>, orgId: JsString, secure: bool)
    requires EncodeComponent(orgId).Some?
    ensures SetCookie(jar, LastOrganizationCookie(orgId, secure).value)
            == Stored(jar, Cookie(LAST_ORGANIZATION_COOKIE, EncodeComponent(orgId).value))
  {
    var value := EncodeComponent(orgId).value;
    EncodedComponent(orgId);
    ExpiryMeaning(value, ONE_YEAR, secure);
    ParsedPair(LastOrganizationCookie(orgId, secure).value, value);
  }

  /** The cleared text removes it. */
  lemma ClearedRemoves(jar: seq<Cookie>, secure: bool)
    ensures SetCookie(jar, ClearedLastOrganizationCookie(secure)) == Without(jar, LAST_ORGANIZATION_COOKIE)
  {
    ExpiryMeaning([], EXPIRED, secure);
    ParsedPair(ClearedLastOrganizationCookie(secure), []);
  }

  lemma {:induction false} StoredShape(jar: seq<Cookie>, c: Cookie)
    requires ValidJar(jar) && ValidCookie(c)
    ensures ValidJar(Stored(jar, c)) && Lookup(Stored(jar, c), c.name) == Some(c.value)
    ensures forall d: Cookie :: d.name != c.name ==> (d in Stored(jar, c) <==> d in jar)
    ensures forall d :: d in Stored(jar, c) ==> d == c || d in jar
  {
    if jar != [] && jar[0].name != c.name {
      JarTail(jar);
      StoredShape(jar[1..], c);
      JarCons(jar[0], Stored(jar[1..], c));
    }
  }

  lemma {:induction false} WithoutShape(jar: seq<Cookie>, name: JsString)
    requires ValidJar(jar)
    ensures ValidJar(Without(jar, name)) && Lookup(Without(jar, name), name) == None
    ensures forall d: Cookie :: d in Without(jar, name) <==> d in jar && d.name != name
  {
    if jar != [] {
      JarTail(jar);
      WithoutShape(jar[1..], name);
      var rest := Without(jar[1..], name);
      if jar[0].name != name {
        JarCons(jar[0], rest);
        assert Without(jar, name) == [jar[0]] + rest;
      } else {
        assert Without(jar, name) == rest;
      }
      assert forall d: Cookie :: d in jar <==> d == jar[0] || d in jar[1..];
    }
  }

  lemma JarTail(jar: seq<Cookie>)
    requires ValidJar(jar) && jar != []
    ensures ValidJar(jar[1..]) && ValidCookie(jar[0]) && forall d :: d in jar[1..] ==> d.name != jar[0].name
  {
  }

  lemma JarCons(c: Cookie, jar: seq<Cookie>)
    requires ValidJar(jar) && ValidCookie(c) && forall d :: d in jar ==> d.name != c.name
    ensures ValidJar([c] + jar)
  {
  }

  /** The document: setting `cookie` stores, reading it writes the jar out. */
  class Document {
    var jar: seq<Cookie>

    ghost predicate Valid()
      reads this
    {
      ValidJar(jar)
    }

    constructor ()
      ensures Valid() && jar == []
    {
      jar := [];
    }

    /** Opening an organization's pages; a lone surrogate in the id throws before anything is stored. */
    method RememberLastOrganization(orgId: JsString, secure: bool) returns (thrown: bool)
      requires Valid()
      modifies this
      ensures Valid()
      ensures thrown <==> HasLoneSurrogate(CodePoints(orgId))
      ensures thrown ==> jar == old(jar)
      ensures !thrown ==> RememberedOrganization(Written(jar)) == Some(orgId)
      ensures forall c: Cookie :: c.name != LAST_ORGANIZATION_COOKIE ==> (c in jar <==> c in old(jar))
    {
      EncodingFails(CodePoints(orgId));
      var text := LastOrganizationCookie(orgId, secure);
      if text.None? {
        return true;
      }
      CookieStores(jar, orgId, secure);
      ghost var c := Cookie(LAST_ORGANIZATION_COOKIE, EncodeComponent(orgId).value);
      EncodedComponent(orgId);
      RememberedPair(c.value);
      NameIsPlain();
      StoredShape(jar, c);
      jar := SetCookie(jar, text.value);
      RememberedMeaning(jar);
      DecodeEncoded(orgId);
      thrown := false;
    }

    /** A deleted organization stops being remembered; any other remembered one stays. */
    method ForgetLastOrganization(orgId: JsString, secure: bool)
      requires Valid()
      modifies this
      ensures Valid()
      ensures RememberedOrganization(Written(jar))
              == if RememberedOrganization(Written(old(jar))) == Some(orgId) then None
                 else RememberedOrganization(Written(old(jar)))
      ensures forall c: Cookie :: c.name != LAST_ORGANIZATION_COOKIE ==> (c in jar <==> c in old(jar))
    {
      if RememberedOrganization(Written(jar)) != Some(orgId) {
        return;
      }
      ClearedRemoves(jar, secure);
      WithoutShape(jar, LAST_ORGANIZATION_COOKIE);
      jar := SetCookie(jar, ClearedLastOrganizationCookie(secure));
      RememberedMeaning(jar);
    }
  }
}
