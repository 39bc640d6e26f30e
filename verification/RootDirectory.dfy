/**
 The two definitions of a root directory, and what normalizing does to a valid one
 (web/src/modules/repo-links/domain/root-directory.ts).
 */
module RootDirectory {
  import opened Options
  import opened JsStrings
  import opened Regex
  import opened TextSearch

  const MAX_ROOT_DIRECTORY_LENGTH := 255
  const REPOSITORY_ROOT: JsString := []
  const SLASH_CHARACTER: int := 0x2F

  const SLASH: seq<int> := [0x2F]                          // /
  const PERIOD: seq<int> := [0x2E]                         // .
  const PERIODS: seq<int> := [0x2E, 0x2E]                  // ..
  const SLASHES: seq<int> := [0x2F, 0x2F]                  // //
  const PERIOD_SLASH: seq<int> := [0x2E, 0x2F]             // ./
  const SLASH_PERIOD: seq<int> := [0x2F, 0x2E]             // /.
  const SLASH_PERIOD_SLASH: seq<int> := [0x2F, 0x2E, 0x2F] // /./

  /** `[\\\x00-\x1f\x7f-\x9f]` */
  const EXCLUDED: seq<Range> := [Range(0x5C, 0x5C), Range(0x00, 0x1F), Range(0x7F, 0x9F)]

  const SLASH_OR_END := Either(Exactly(SLASH_CHARACTER), AtEnd)
  const UP_TO_SLASH := Optionally(Sequence([ANYTHING] + Letters(SLASH)))

  const LOOK_AHEADS: seq<Regex> :=
    [Sequence(Letters(SLASH)),                                         // (?!/)
     Sequence([ANYTHING] + Letters(PERIODS)),                          // (?!.*\.\.)
     Sequence([ANYTHING] + Letters(SLASHES)),                          // (?!.*//)
     Sequence([UP_TO_SLASH] + (Letters(PERIOD) + [SLASH_OR_END]))]     // (?!(.*/)?\.(/|$))

  /** `^$|^(?!..)...$` */
  const ROOT_DIRECTORY_PATTERN :=
    Either(Sequence([AtStart, AtEnd]), Validation(LOOK_AHEADS, EXCLUDED, true, 1, 255))

  /** The texts the rules are about, character by character. */
  lemma TextsRead()
    ensures [SLASH_CHARACTER] == SLASH == Units("/") && PERIOD == Units(".") && [BACKSLASH] == Units("\\")
    ensures PERIODS == Units("..") && SLASHES == Units("//") && PERIOD_SLASH == Units("./")
    ensures SLASH_PERIOD == Units("/.") && SLASH_PERIOD_SLASH == Units("/./")
  {
  }

  predicate IsIsoControl(c: int) {
    c <= 0x1F || 0x7F <= c <= 0x9F
  }

  /** `charCodeAt(0)` of the character a code point iterates as. */
  function FirstUnit(c: CodePoint): Unit { UnitsOf(c)[0] }

  const BACKSLASH: int := 0x5C

  /** The scan of the characters: the first forbidden one decides the message. */
  function CharacterViolation(p: Text): Option<string> {
    if p == [] then None
    else if p[0] == BACKSLASH then Some("must not contain a backslash")
    else if IsIsoControl(FirstUnit(p[0])) then Some("must not contain control characters")
    else CharacterViolation(p[1..])
  }

  /** The scan of the segments. */
  function SegmentViolation(segments: seq<seq<int>>): Option<string> {
    if segments == [] then None
    else if segments[0] == [] then Some("must not contain an empty segment")
    else if segments[0] == PERIOD then Some("must not contain a '.' segment")
    else SegmentViolation(segments[1..])
  }

  function DropTrailingSlash(value: JsString): JsString {
    if EndsWith(value, SLASH) then value[..|value| - 1] else value
  }

  /** The first rule a directory breaks, in the checker's order. */
  function RootDirectoryViolation(value: JsString): Option<string> {
    if value == REPOSITORY_ROOT then None
    else if |value| > MAX_ROOT_DIRECTORY_LENGTH then Some("must be at most 255 characters")
    else if StartsWith(value, SLASH) then Some("must be relative to the repository root")
    else
      var character := CharacterViolation(CodePoints(value));
      if character.Some? then character
      else if Includes(value, PERIODS) then Some("must not contain '..'")
      else SegmentViolation(Split(DropTrailingSlash(value), SLASH_CHARACTER))
  }

  function Normalize(value: JsString): JsString { DropTrailingSlash(value) }

  /** The form's schema: trims, refuses a violation, then normalizes. */
  function ParseRootDirectory(typed: JsString): Option<JsString> {
    var value := Trim(typed);
    if RootDirectoryViolation(value).Some? then None else Some(Normalize(value))
  }

  lemma NormalizeMeaning(value: JsString)
    ensures Normalize(value)
            == if value != [] && value[|value| - 1] == 0x2F then value[..|value| - 1] else value
  {
    if value != [] {
      assert value[|value| - 1..] == [value[|value| - 1]];
    }
  }

  // ----- A common meaning for both, on code points.

  predicate IsExcluded(c: int) {
    c == BACKSLASH || c <= 0x1F || 0x7F <= c <= 0x9F
  }

  predicate AllowedThroughout(p: seq<int>) {
    forall k :: 0 <= k < |p| ==> !IsExcluded(p[k])
  }

  /** Every rule that is about more than one character. */
  predicate DirectoryRules(p: seq<int>) {
    && !StartsWith(p, SLASH) && !Includes(p, PERIODS) && !Includes(p, SLASHES)
    && p != PERIOD && !StartsWith(p, PERIOD_SLASH)
    && !EndsWith(p, SLASH_PERIOD) && !Includes(p, SLASH_PERIOD_SLASH)
  }

  lemma {:induction false} CharacterScan(p: Text)
    ensures CharacterViolation(p).None? <==> AllowedThroughout(p)
  {
    if p != [] {
      CharacterScan(p[1..]);
      assert forall k :: 1 <= k < |p| ==> p[k] == p[1..][k - 1];
    }
  }

  lemma {:induction false} SegmentScan(segments: seq<seq<int>>)
    ensures SegmentViolation(segments).None? <==> [] !in segments && PERIOD !in segments
  {
    if segments != [] {
      SegmentScan(segments[1..]);
      assert segments == [segments[0]] + segments[1..];
    }
  }

  lemma OccursInPrefix(t: seq<int>, c: int, w: seq<int>, i: int)
    requires w != []
    ensures OccursAt(t + [c], w, i)
            <==> OccursAt(t, w, i) || (i == |t| + 1 - |w| && w[|w| - 1] == c && OccursAt(t, w[..|w| - 1], i))
  {
    var s := t + [c];
    if 0 <= i && i + |w| <= |t| {
      assert s[i..i + |w|] == t[i..i + |w|];
    } else if 0 <= i && i + |w| == |s| {
      assert s[i..i + |w|] == t[i..] + [c];
      assert w == w[..|w| - 1] + [w[|w| - 1]];
    }
  }

  lemma IncludesInPrefix(t: seq<int>, c: int, w: seq<int>)
    requires w != []
    ensures Includes(t + [c], w) <==> Includes(t, w) || (w[|w| - 1] == c && EndsWith(t, w[..|w| - 1]))
  {
    forall i {
      OccursInPrefix(t, c, w, i);
    }
    if w[|w| - 1] == c && EndsWith(t, w[..|w| - 1]) {
      assert OccursAt(t + [c], w, |t| + 1 - |w|);
    }
  }

  /** With a trailing slash, what the segments of the rest must not be. */
  lemma TrailingSlash(t: seq<int>)
    ensures var s := t + [SLASH_CHARACTER];
            && (Includes(s, SLASHES) <==> Includes(t, SLASHES) || EndsWith(t, SLASH))
            && (Includes(s, SLASH_PERIOD_SLASH) <==> Includes(t, SLASH_PERIOD_SLASH) || EndsWith(t, SLASH_PERIOD))
            && (StartsWith(s, PERIOD_SLASH) <==> t == PERIOD || StartsWith(t, PERIOD_SLASH))
            && !EndsWith(s, SLASH_PERIOD) && s != PERIOD
  {
    var s := t + [SLASH_CHARACTER];
    IncludesInPrefix(t, SLASH_CHARACTER, SLASHES);
    IncludesInPrefix(t, SLASH_CHARACTER, SLASH_PERIOD_SLASH);
    OccursInPrefix(t, SLASH_CHARACTER, PERIOD_SLASH, 0);
    OccursInPrefix(t, SLASH_CHARACTER, SLASH_PERIOD, |s| - 2);
    assert SLASHES[..1] == SLASH && SLASH_PERIOD_SLASH[..2] == SLASH_PERIOD && PERIOD_SLASH[..1] == PERIOD;
    assert OccursAt(t, PERIOD, 0) && |t| == 1 <==> t == PERIOD;
    assert s[|s| - 1] == SLASH_CHARACTER;
  }

  lemma EmptySegment(t: seq<int>)
    ensures [] in Split(t, SLASH_CHARACTER)
            <==> t == [] || StartsWith(t, SLASH) || EndsWith(t, SLASH) || Includes(t, SLASHES)
  {
    SomeComponentIs(t, SLASH_CHARACTER, []);
    assert [] + [SLASH_CHARACTER] == SLASH == [SLASH_CHARACTER] + [] && SLASH + [SLASH_CHARACTER] == SLASHES;
  }

  lemma PeriodSegment(t: seq<int>)
    ensures PERIOD in Split(t, SLASH_CHARACTER)
            <==> t == PERIOD || StartsWith(t, PERIOD_SLASH) || EndsWith(t, SLASH_PERIOD)
                 || Includes(t, SLASH_PERIOD_SLASH)
  {
    SomeComponentIs(t, SLASH_CHARACTER, PERIOD);
    assert PERIOD + [SLASH_CHARACTER] == PERIOD_SLASH && [SLASH_CHARACTER] + PERIOD == SLASH_PERIOD;
    assert SLASH_PERIOD + [SLASH_CHARACTER] == SLASH_PERIOD_SLASH;
  }

  /** Dropping one trailing slash first, the segment rules are the raw-slash rules. */
  lemma SegmentsMeaning(value: JsString)
    requires value != [] && !StartsWith(value, SLASH)
    ensures SegmentViolation(Split(DropTrailingSlash(value), SLASH_CHARACTER)).None?
            <==> !Includes(value, SLASHES) && value != PERIOD && !StartsWith(value, PERIOD_SLASH)
                 && !EndsWith(value, SLASH_PERIOD) && !Includes(value, SLASH_PERIOD_SLASH)
  {
    var t := DropTrailingSlash(value);
    SegmentScan(Split(t, SLASH_CHARACTER));
    EmptySegment(t);
    PeriodSegment(t);
    if EndsWith(value, SLASH) {
      assert value == t + [SLASH_CHARACTER];
      TrailingSlash(t);
      OccursInPrefix(t, SLASH_CHARACTER, SLASH, 0);
    }
  }

  lemma RulesOnCodePoints(value: JsString)
    ensures DirectoryRules(value) <==> DirectoryRules(CodePoints(value))
  {
    CodePointsAgree(value, SLASH);
    CodePointsAgree(value, PERIODS);
    CodePointsAgree(value, SLASHES);
    CodePointsAgree(value, PERIOD_SLASH);
    CodePointsAgree(value, SLASH_PERIOD);
    CodePointsAgree(value, SLASH_PERIOD_SLASH);
    EncodeCodePoints(value);
    EncodeIs(CodePoints(value), PERIOD);
  }

  lemma ViolationOnUnits(value: JsString)
    ensures RootDirectoryViolation(value).None?
            <==> value == [] || (|value| <= MAX_ROOT_DIRECTORY_LENGTH && AllowedThroughout(CodePoints(value))
                                 && DirectoryRules(value))
  {
    CharacterScan(CodePoints(value));
    if value != [] && !StartsWith(value, SLASH) {
      SegmentsMeaning(value);
    }
  }

  /** The checker's answer, without its order. */
  lemma ViolationMeaning(value: JsString)
    ensures RootDirectoryViolation(value).None?
            <==> value == [] || (|value| <= MAX_ROOT_DIRECTORY_LENGTH && AllowedThroughout(CodePoints(value))
                                 && DirectoryRules(CodePoints(value)))
  {
    ViolationOnUnits(value);
    RulesOnCodePoints(value);
  }

  // ----- What the checker says: the first rule broken, and within the scans the first offender.

  lemma {:induction false} FirstCharacter(p: Text, k: nat)
    requires k < |p| && IsExcluded(p[k]) && AllowedThroughout(p[..k])
    ensures CharacterViolation(p)
            == Some(if p[k] == 0x5C then "must not contain a backslash" else "must not contain control characters")
  {
    if k > 0 {
      assert p[..k][0] == p[0] && p[1..][..k - 1] == p[..k][1..];
      FirstCharacter(p[1..], k - 1);
    }
  }

  lemma {:induction false} FirstSegment(segments: seq<seq<int>>, k: nat)
    requires k < |segments| && segments[k] in [[], PERIOD]
    requires forall i :: 0 <= i < k ==> segments[i] !in [[], PERIOD]
    ensures SegmentViolation(segments)
            == Some(if segments[k] == [] then "must not contain an empty segment"
                    else "must not contain a '.' segment")
  {
    if k > 0 {
      FirstSegment(segments[1..], k - 1);
    }
  }

  /** Neither the root, too long nor absolute. */
  predicate IsScanned(value: JsString) { value != [] && |value| <= 255 && !StartsWith(value, SLASH) }

  /** Too long first, then absolute, and only then a parent segment, once every character is allowed. */
  lemma PlainComplaints(value: JsString)
    ensures |value| > 255 ==> RootDirectoryViolation(value) == Some("must be at most 255 characters")
    ensures 1 <= |value| <= 255 && value[0] == 0x2F ==>
              RootDirectoryViolation(value) == Some("must be relative to the repository root")
    ensures IsScanned(value) && AllowedThroughout(CodePoints(value)) && Includes(value, PERIODS) ==>
              RootDirectoryViolation(value) == Some("must not contain '..'")
  {
    CharacterScan(CodePoints(value));
  }

  /** The first character not allowed decides the complaint, before anything of segments. */
  lemma CharacterComplaint(value: JsString, k: nat)
    requires IsScanned(value) && k < |CodePoints(value)|
    requires IsExcluded(CodePoints(value)[k]) && AllowedThroughout(CodePoints(value)[..k])
    ensures RootDirectoryViolation(value)
            == Some(if CodePoints(value)[k] == 0x5C then "must not contain a backslash"
                    else "must not contain control characters")
  {
    FirstCharacter(CodePoints(value), k);
  }

  /** Last of all, the first bad segment does. */
  lemma SegmentComplaint(value: JsString, k: nat)
    requires IsScanned(value) && AllowedThroughout(CodePoints(value)) && !Includes(value, PERIODS)
    requires var segments := Split(DropTrailingSlash(value), SLASH_CHARACTER);
             k < |segments| && segments[k] in [[], PERIOD]
             && forall i :: 0 <= i < k ==> segments[i] !in [[], PERIOD]
    ensures RootDirectoryViolation(value)
            == Some(if Split(DropTrailingSlash(value), SLASH_CHARACTER)[k] == []
                    then "must not contain an empty segment" else "must not contain a '.' segment")
  {
    CharacterScan(CodePoints(value));
    FirstSegment(Split(DropTrailingSlash(value), SLASH_CHARACTER), k);
  }

  lemma CharacterAllowed(c: int)
    requires c >= 0
    ensures InClass(c, EXCLUDED, true) <==> !IsExcluded(c)
  {
    var r := EXCLUDED;
    assert r[0] == Range(0x5C, 0x5C) && r[1] == Range(0x00, 0x1F) && r[2] == Range(0x7F, 0x9F);
  }

  /** `(?!(.*\/)?\.(\/|$))` */
  lemma AheadPeriodSegment(s: seq<int>)
    ensures CanMatch(Sequence([UP_TO_SLASH] + (Letters(PERIOD) + [SLASH_OR_END])), s, 0)
            <==> (var p := FirstLine(s);
                  p == PERIOD || StartsWith(p, PERIOD_SLASH) || EndsWith(p, SLASH_PERIOD)
                  || Includes(p, SLASH_PERIOD_SLASH))
  {
    AheadWholeComponent(s, SLASH_CHARACTER, PERIOD);
    assert [SLASH_CHARACTER] + PERIOD == SLASH_PERIOD && PERIOD + [SLASH_CHARACTER] == PERIOD_SLASH;
    assert SLASH_PERIOD + [SLASH_CHARACTER] == SLASH_PERIOD_SLASH;
  }

  /** What look-ahead `k` refuses. */
  predicate Refused(k: nat, p: seq<int>) {
    match k
    case 0 => StartsWith(p, SLASH)
    case 1 => Includes(p, PERIODS)
    case 2 => Includes(p, SLASHES)
    case _ => p == PERIOD || StartsWith(p, PERIOD_SLASH) || EndsWith(p, SLASH_PERIOD)
              || Includes(p, SLASH_PERIOD_SLASH)
  }

  lemma LookAheadMeaning(k: nat, p: seq<int>)
    requires k < |LOOK_AHEADS|
    ensures CanMatch(LOOK_AHEADS[k], p, 0) <==> Refused(k, FirstLine(p))
  {
    match k
    case 0 => AheadLetters(p, SLASH);
    case 1 => AheadIncludes(p, PERIODS);
    case 2 => AheadIncludes(p, SLASHES);
    case _ => AheadPeriodSegment(p);
  }

  lemma RulesRefuse(p: seq<int>)
    ensures DirectoryRules(p) <==> forall k: nat :: k < |LOOK_AHEADS| ==> !Refused(k, p)
  {
    if forall k: nat :: k < |LOOK_AHEADS| ==> !Refused(k, p) {
      assert !Refused(0, p) && !Refused(1, p) && !Refused(2, p) && !Refused(3, p);
    }
  }

  lemma TestEmpty(p: seq<int>)
    ensures Test(Sequence([AtStart, AtEnd]), p) <==> p == []
  {
    var r := Sequence([AtStart, AtEnd]);
    assert [AtStart, AtEnd] == [AtStart] + [AtEnd];
    forall i: nat, j: nat
      ensures Matches(r, p, i, j) <==> i == j == 0 == |p|
    {
      MatchesFirst(AtStart, [AtEnd], p, i, j);
      MatchesOne(AtEnd, p, 0, j);
      assert Matches(AtStart, p, i, 0) <==> i == 0;
    }
    assert Matches(r, p, 0, 0) ==> CanMatch(r, p, 0);
  }

  lemma TestEither(a: Regex, b: Regex, s: seq<int>)
    ensures Test(Either(a, b), s) <==> Test(a, s) || Test(b, s)
  {
    forall i: nat
      ensures CanMatch(Either(a, b), s, i) <==> CanMatch(a, s, i) || CanMatch(b, s, i)
    {
      if j: nat :| Matches(Either(a, b), s, i, j) {
        assert Matches(a, s, i, j) || Matches(b, s, i, j);
      }
      if CanMatch(a, s, i) || CanMatch(b, s, i) {
        var j: nat :| Matches(a, s, i, j) || Matches(b, s, i, j);
        assert Matches(Either(a, b), s, i, j);
      }
    }
  }

  /** Exactly what the pattern accepts: its multi-character rules see the first line only. */
  lemma PatternMeaning(p: Text)
    ensures Test(ROOT_DIRECTORY_PATTERN, p)
            <==> p == [] || (|p| <= 255 && AllowedThroughout(p) && DirectoryRules(FirstLine(p)))
  {
    TestEither(Sequence([AtStart, AtEnd]), Validation(LOOK_AHEADS, EXCLUDED, true, 1, 255), p);
    TestEmpty(p);
    TestValidation(LOOK_AHEADS, EXCLUDED, true, 1, 255, p);
    forall k: nat | k < |LOOK_AHEADS|
      ensures CanMatch(LOOK_AHEADS[k], p, 0) <==> Refused(k, FirstLine(p))
    {
      LookAheadMeaning(k, p);
    }
    RulesRefuse(FirstLine(p));
    forall k | 0 <= k < |p|
      ensures InClass(p[k], EXCLUDED, true) <==> !IsExcluded(p[k])
    {
      CharacterAllowed(p[k]);
    }
  }

  // ----- Where the two definitions agree.

  lemma {:induction false} NoMoreCodePoints(value: JsString)
    ensures |CodePoints(value)| <= |value| && (CodePoints(value) == [] <==> value == [])
  {
    if |value| >= 2 && IsHigh(value[0]) && IsLow(value[1]) {
      NoMoreCodePoints(value[2..]);
    } else if value != [] {
      NoMoreCodePoints(value[1..]);
    }
  }

  lemma FirstLineKeepsRules(p: seq<int>)
    requires DirectoryRules(p)
    ensures DirectoryRules(FirstLine(p))
  {
    var line := FirstLine(p);
    WholeFirstLine(p, PERIOD);
    forall w, i | OccursAt(line, w, i)
      ensures OccursAt(p, w, i)
    {
      assert line[i..i + |w|] == p[i..i + |w|];
    }
    EndOfFirstLine(p, SLASH_PERIOD);
  }

  /** Whatever the checker accepts, the pattern accepts, for every string. */
  lemma CheckerImpliesPattern(value: JsString)
    requires RootDirectoryViolation(value).None?
    ensures Test(ROOT_DIRECTORY_PATTERN, CodePoints(value))
  {
    var p := CodePoints(value);
    ViolationMeaning(value);
    PatternMeaning(p);
    NoMoreCodePoints(value);
    if p != [] {
      FirstLineKeepsRules(p);
    }
  }

  predicate NoSeparators(p: Text) {
    LINE_SEPARATOR !in p && PARAGRAPH_SEPARATOR !in p
  }

  lemma AllOnFirstLine(p: Text)
    requires AllowedThroughout(p) && NoSeparators(p)
    ensures FirstLine(p) == p
  {
    forall i | 0 <= i < |p|
      ensures !IsLineTerminator(p[i])
    {
      assert p[i] in p;
    }
    FirstLineIsAll(p);
  }

  /** With no separator in it, a directory the pattern accepts is refused only for its length in UTF-16 units. */
  lemma PatternAndChecker(value: JsString)
    requires NoSeparators(CodePoints(value))
    ensures RootDirectoryViolation(value).None?
            <==> Test(ROOT_DIRECTORY_PATTERN, CodePoints(value)) && |value| <= MAX_ROOT_DIRECTORY_LENGTH
  {
    var p := CodePoints(value);
    ViolationMeaning(value);
    PatternMeaning(p);
    NoMoreCodePoints(value);
    if AllowedThroughout(p) {
      AllOnFirstLine(p);
    }
  }

  /** The disagreement in full. */
  lemma PatternOnly(value: JsString)
    ensures Test(ROOT_DIRECTORY_PATTERN, CodePoints(value)) && RootDirectoryViolation(value).Some?
            <==> var p := CodePoints(value);
                 p != [] && |p| <= 255 && AllowedThroughout(p) && DirectoryRules(FirstLine(p))
                 && (|value| > MAX_ROOT_DIRECTORY_LENGTH || !DirectoryRules(p))
  {
    ViolationMeaning(value);
    PatternMeaning(CodePoints(value));
    NoMoreCodePoints(value);
  }

  /** Such directories exist: U+2028 hides the climb after it from every look-ahead. */
  lemma SeparatorHidesPeriods()
    ensures var value := [LINE_SEPARATOR, 0x2F, 0x2E, 0x2E];
            Test(ROOT_DIRECTORY_PATTERN, CodePoints(value))
            && RootDirectoryViolation(value) == Some("must not contain '..'")
  {
    var value: JsString := [LINE_SEPARATOR, 0x2F, 0x2E, 0x2E];
    assert CodePoints(value) == value by {
      assert CodePoints(value[3..]) == value[3..];
      assert CodePoints(value[2..]) == value[2..];
      assert CodePoints(value[1..]) == value[1..];
    }
    assert FirstLine(value) == [LINE_SEPARATOR];
    PatternMeaning(value);
    CharacterScan(value);
    assert OccursAt(value, PERIODS, 2);
  }

  // ----- What normalizing does.

  lemma AllowedConcat(p: seq<int>, q: seq<int>)
    ensures AllowedThroughout(p + q) <==> AllowedThroughout(p) && AllowedThroughout(q)
  {
    assert forall k :: 0 <= k < |q| ==> (p + q)[|p| + k] == q[k];
    assert forall k :: 0 <= k < |p| ==> (p + q)[k] == p[k];
  }

  lemma {:induction false} AllowedOnUnits(value: JsString)
    ensures AllowedThroughout(CodePoints(value)) <==> AllowedThroughout(value)
  {
    var p := CodePoints(value);
    if value == [] {
    } else if |value| >= 2 && IsHigh(value[0]) && IsLow(value[1]) {
      AllowedOnUnits(value[2..]);
      assert value == [value[0], value[1]] + value[2..];
      AllowedConcat([p[0]], CodePoints(value[2..]));
      AllowedConcat([value[0], value[1]], value[2..]);
    } else {
      AllowedOnUnits(value[1..]);
      assert value == [value[0]] + value[1..];
      AllowedConcat([p[0]], CodePoints(value[1..]));
      AllowedConcat([value[0]], value[1..]);
    }
  }

  lemma DroppedKeepsRules(t: JsString)
    requires DirectoryRules(t + [SLASH_CHARACTER])
    ensures DirectoryRules(t) && !EndsWith(t, SLASH)
  {
    TrailingSlash(t);
    OccursInPrefix(t, SLASH_CHARACTER, SLASH, 0);
    IncludesInPrefix(t, SLASH_CHARACTER, PERIODS);
  }

  lemma DroppedKeepsCharacters(t: JsString)
    requires AllowedThroughout(CodePoints(t + [SLASH_CHARACTER]))
    ensures AllowedThroughout(CodePoints(t))
  {
    AllowedOnUnits(t + [SLASH_CHARACTER]);
    AllowedOnUnits(t);
    assert forall k :: 0 <= k < |t| ==> (t + [SLASH_CHARACTER])[k] == t[k];
  }

  /** For a valid directory, normalizing keeps it valid and is done after once. */
  lemma NormalizeValid(value: JsString)
    requires RootDirectoryViolation(value).None?
    ensures RootDirectoryViolation(Normalize(value)).None?
    ensures Normalize(Normalize(value)) == Normalize(value) && !EndsWith(Normalize(value), SLASH)
  {
    ViolationOnUnits(value);
    if EndsWith(value, SLASH) {
      var t := Normalize(value);
      assert value == t + [SLASH_CHARACTER];
      DroppedKeepsRules(t);
      DroppedKeepsCharacters(t);
      ViolationOnUnits(t);
    }
  }

  /** The segments of a normalized directory, rejoined, and what none of them is. */
  lemma SegmentsOfValid(value: JsString)
    requires RootDirectoryViolation(value).None? && value != REPOSITORY_ROOT
    ensures var segments := Split(Normalize(value), SLASH_CHARACTER);
            && Join(segments, SLASH_CHARACTER) == Normalize(value)
            && forall k :: 0 <= k < |segments| ==>
                 segments[k] != [] && segments[k] != PERIOD && !Includes(segments[k], PERIODS)
  {
    var t := Normalize(value);
    var segments := Split(t, SLASH_CHARACTER);
    JoinSplit(t, SLASH_CHARACTER);
    NormalizeValid(value);
    SegmentScan(segments);
    ViolationOnUnits(t);
    forall k | 0 <= k < |segments|
      ensures segments[k] != [] && segments[k] != PERIOD && !Includes(segments[k], PERIODS)
    {
      assert segments[k] in segments;
      if Includes(segments[k], PERIODS) {
        ComponentIncludes(t, SLASH_CHARACTER, k, PERIODS);
      }
    }
  }

  /** Where a walk from the repository root ends; none when it climbs above the root. */
  function Walk(segments: seq<seq<int>>, reached: seq<seq<int>>): Option<seq<seq<int>>> {
    if segments == [] then Some(reached)
    else if segments[0] == [] || segments[0] == PERIOD then Walk(segments[1..], reached)
    else if segments[0] == PERIODS then
      if reached == [] then None else Walk(segments[1..], reached[..|reached| - 1])
    else Walk(segments[1..], reached + [segments[0]])
  }

  lemma {:induction false} WalkDescends(segments: seq<seq<int>>, reached: seq<seq<int>>)
    requires forall k :: 0 <= k < |segments| ==>
               segments[k] != [] && segments[k] != PERIOD && !Includes(segments[k], PERIODS)
    ensures Walk(segments, reached) == Some(reached + segments)
    decreases |segments|
  {
    if segments == [] {
      assert reached + segments == reached;
    } else {
      assert OccursAt(PERIODS, PERIODS, 0);
      WalkDescends(segments[1..], reached + [segments[0]]);
      assert reached + [segments[0]] + segments[1..] == reached + segments;
    }
  }

  /** Every prefix of a valid directory stays beneath the root, at exactly the segments it names. */
  lemma StaysBeneathRoot(value: JsString, n: nat)
    requires RootDirectoryViolation(value).None? && value != REPOSITORY_ROOT
    requires n <= |Split(Normalize(value), SLASH_CHARACTER)|
    ensures var segments := Split(Normalize(value), SLASH_CHARACTER);
            Walk(segments[..n], []) == Some(segments[..n])
  {
    SegmentsOfValid(value);
    var segments := Split(Normalize(value), SLASH_CHARACTER);
    WalkDescends(segments[..n], []);
    assert [] + segments[..n] == segments[..n];
  }

  /**
   Typing a stored directory in again changes nothing, unless what was typed first ended in white space
   and then a slash.
   */
  lemma ReparseStable(typed: JsString)
    requires ParseRootDirectory(typed).Some?
    ensures var v, stored := Trim(typed), ParseRootDirectory(typed).value;
            ParseRootDirectory(stored) == Some(stored)
            <==> !(|v| >= 2 && EndsWith(v, SLASH) && IsWhiteSpace(v[|v| - 2]))
  {
    var v := Trim(typed);
    var stored := Normalize(v);
    NormalizeValid(v);
    TrimShape(typed);
    TrimShape(stored);
    if EndsWith(v, SLASH) {
      assert v == stored + [SLASH_CHARACTER];
      ViolationOnUnits(v);
      assert stored != [];
      assert IsTrimmed(stored) <==> !IsWhiteSpace(stored[|stored| - 1]);
    }
    if !IsTrimmed(stored) && ParseRootDirectory(stored).Some? {
      assert |Normalize(Trim(stored))| <= |Trim(stored)| < |stored|;
    }
  }
}
