/**
 The two definitions of a branch name: the look-ahead pattern and the ordered checker
 (web/src/modules/repo-links/domain/branch-name.ts), and exactly where they agree.
 */
module BranchName {
  import opened Options
  import opened JsStrings
  import opened Regex
  import opened TextSearch
  import UriComponents

  const MAX_BRANCH_BYTES := 255
  const SLASH_CHARACTER: int := 0x2F

  const HYPHEN: seq<int> := [0x2D]                  // -
  const SLASH: seq<int> := [0x2F]                   // /
  const PERIOD: seq<int> := [0x2E]                  // .
  const PERIODS: seq<int> := [0x2E, 0x2E]           // ..
  const SLASHES: seq<int> := [0x2F, 0x2F]           // //
  const AT_BRACE: seq<int> := [0x40, 0x7B]          // @{
  const AT: seq<int> := [0x40]                      // @
  const LOCK: seq<int> := [0x2E, 0x6C, 0x6F, 0x63, 0x6B] // .lock
  const SLASH_PERIOD: seq<int> := [0x2F, 0x2E]      // /.
  const LOCK_SLASH: seq<int> := [0x2E, 0x6C, 0x6F, 0x63, 0x6B, 0x2F] // .lock/
  const FORBIDDEN: seq<int> := [0x7E, 0x5E, 0x3A, 0x3F, 0x2A, 0x5B, 0x5C, 0x20] // ~^:?*[\ and the space

  /** The texts the rules are about, character by character. */
  lemma TextsRead()
    ensures [SLASH_CHARACTER] == SLASH == Units("/") && HYPHEN == Units("-") && PERIOD == Units(".")
    ensures PERIODS == Units("..") && SLASHES == Units("//") && AT_BRACE == Units("@{") && AT == Units("@")
    ensures LOCK == Units(".lock") && SLASH_PERIOD == Units("/.") && LOCK_SLASH == Units(".lock/")
    ensures FORBIDDEN == Units("~^:?*[\\ ")
  {
  }

  function One(c: char): Range { Range(c as int, c as int) }

  /** `[\x00-\x20\x7f~^:?*[\\]` */
  const EXCLUDED: seq<Range> :=
    [Range(0x00, 0x20), Range(0x7F, 0x7F),
     One('~'), One('^'), One(':'), One('?'), One('*'), One('['), One('\\')]

  const UP_TO_SLASH := Optionally(Sequence([ANYTHING] + Letters(SLASH)))

  const BRANCH_LOOK_AHEADS: seq<Regex> :=
    [Sequence(Letters(HYPHEN)),                                       // (?!-)
     Sequence(Letters(SLASH)),                                       // (?!/)
     Sequence([ANYTHING] + (Letters(SLASH) + [AtEnd])),              // (?!.*/$)
     Sequence([ANYTHING] + (Letters(PERIOD) + [AtEnd])),              // (?!.*\.$)
     Sequence([ANYTHING] + Letters(PERIODS)),                         // (?!.*\.\.)
     Sequence([ANYTHING] + Letters(SLASHES)),                         // (?!.*//)
     Sequence([ANYTHING] + Letters(AT_BRACE)),                         // (?!.*@\{)
     Sequence(Letters(AT) + [AtEnd]),                             // (?!@$)
     Sequence([UP_TO_SLASH] + Letters(PERIOD)),                       // (?!(.*/)?\.)
     Sequence([ANYTHING] + (Letters(LOCK) + [Either(Exactly(SLASH_CHARACTER), AtEnd)]))]  // (?!.*\.lock(/|$))

  const BRANCH_PATTERN := Validation(BRANCH_LOOK_AHEADS, EXCLUDED, true, 1, 255)

  /** Bytes of one code point as `TextEncoder` writes it; a lone surrogate becomes U+FFFD, three bytes. */
  function Utf8Length(p: Text): nat {
    if p == [] then 0
    else
      (if p[0] < 0x80 then 1 else if p[0] < 0x800 then 2 else if p[0] < 0x1_0000 then 3 else 4)
      + Utf8Length(p[1..])
  }

  /** `TextEncoder`: UTF-8, a lone surrogate replaced. */
  function TextBytes(p: Text): seq<UriComponents.Byte> {
    if p == [] then []
    else UriComponents.Utf8(if UriComponents.IsSurrogate(p[0]) then 0xFFFD else p[0]) + TextBytes(p[1..])
  }

  lemma {:induction false} Utf8LengthMeaning(p: Text)
    ensures Utf8Length(p) == |TextBytes(p)|
  {
    if p != [] {
      Utf8LengthMeaning(p[1..]);
    }
  }

  predicate IsForbidden(c: int) {
    c < 0x20 || c == 0x7F || c in FORBIDDEN
  }

  predicate HasForbiddenCharacter(name: JsString) {
    var p := CodePoints(name);
    exists k :: 0 <= k < |p| && IsForbidden(p[k])
  }

  /** The first rule a name breaks, in the checker's order. */
  function BranchNameViolation(name: JsString): Option<string> {
    var components := Split(name, SLASH_CHARACTER);
    if name == [] then Some("must name a branch or tag")
    else if Utf8Length(CodePoints(name)) > MAX_BRANCH_BYTES then Some("must be at most 255 bytes")
    else if StartsWith(name, HYPHEN) then Some("must not start with '-'")
    else if Includes(name, PERIODS) then Some("must not contain '..'")
    else if Includes(name, AT_BRACE) || name == AT then Some("must not contain '@{' or be '@'")
    else if HasForbiddenCharacter(name) then
      Some("must not contain control characters, spaces, or any of ~^:?*[\\")
    else if StartsWith(name, SLASH) || EndsWith(name, SLASH) || Includes(name, SLASHES) then
      Some("must not start or end with '/' or contain '//'")
    else if EndsWith(name, PERIOD) then Some("must not end with '.'")
    else if SomeStartsWith(components, PERIOD) || SomeEndsWith(components, LOCK) then
      Some("no component may start with '.' or end with '.lock'")
    else None
  }

  /** The form's schema: trims, then refuses an empty name or a violation. */
  function ParseBranchName(typed: JsString): Option<JsString> {
    var name := Trim(typed);
    if name == [] || BranchNameViolation(name).Some? then None else Some(name)
  }

  // ----- A common meaning for both, on code points.

  predicate AllowedThroughout(p: seq<int>) {
    forall k :: 0 <= k < |p| ==> !IsForbidden(p[k])
  }

  /** Every rule that is about more than one character. */
  predicate BranchRules(p: seq<int>) {
    && !StartsWith(p, HYPHEN) && p != AT
    && !StartsWith(p, SLASH) && !EndsWith(p, SLASH)
    && !EndsWith(p, PERIOD)
    && !Includes(p, PERIODS) && !Includes(p, SLASHES) && !Includes(p, AT_BRACE)
    && !StartsWith(p, PERIOD) && !Includes(p, SLASH_PERIOD)
    && !EndsWith(p, LOCK) && !Includes(p, LOCK_SLASH)
  }

  lemma CharacterAllowed(c: int)
    requires c >= 0
    ensures InClass(c, EXCLUDED, true) <==> !IsForbidden(c)
  {
    var r := EXCLUDED;
    assert r[0] == Range(0x00, 0x20) && r[1] == Range(0x7F, 0x7F) && r[2] == One('~') && r[3] == One('^')
           && r[4] == One(':') && r[5] == One('?') && r[6] == One('*') && r[7] == One('[') && r[8] == One('\\');
  }

  lemma RulesOnCodePoints(name: JsString)
    ensures BranchRules(name) <==> BranchRules(CodePoints(name))
  {
    CodePointsAgree(name, HYPHEN);
    EncodeCodePoints(name);
    EncodeIs(CodePoints(name), AT);
    CodePointsAgree(name, SLASH);
    CodePointsAgree(name, PERIOD);
    CodePointsAgree(name, PERIODS);
    CodePointsAgree(name, SLASHES);
    CodePointsAgree(name, AT_BRACE);
    CodePointsAgree(name, SLASH_PERIOD);
    CodePointsAgree(name, LOCK);
    CodePointsAgree(name, LOCK_SLASH);
  }

  lemma ComponentsMeaning(name: JsString)
    ensures SomeStartsWith(Split(name, SLASH_CHARACTER), PERIOD)
            <==> StartsWith(name, PERIOD) || Includes(name, SLASH_PERIOD)
    ensures SomeEndsWith(Split(name, SLASH_CHARACTER), LOCK)
            <==> EndsWith(name, LOCK) || Includes(name, LOCK_SLASH)
  {
    SomeComponentStartsWith(name, SLASH_CHARACTER, PERIOD);
    SomeComponentEndsWith(name, SLASH_CHARACTER, LOCK);
    assert [SLASH_CHARACTER] + PERIOD == SLASH_PERIOD;
    assert LOCK + [SLASH_CHARACTER] == LOCK_SLASH;
  }

  lemma ForbiddenMeaning(name: JsString)
    ensures HasForbiddenCharacter(name) <==> !AllowedThroughout(CodePoints(name))
  {
  }

  lemma AcceptedObeysRules(name: JsString)
    requires BranchNameViolation(name).None?
    ensures name != [] && Utf8Length(CodePoints(name)) <= MAX_BRANCH_BYTES
    ensures AllowedThroughout(CodePoints(name)) && BranchRules(name)
  {
    ComponentsMeaning(name);
    ForbiddenMeaning(name);
  }

  lemma ObeyingRulesIsAccepted(name: JsString)
    requires name != [] && Utf8Length(CodePoints(name)) <= MAX_BRANCH_BYTES
    requires AllowedThroughout(CodePoints(name)) && BranchRules(name)
    ensures BranchNameViolation(name).None?
  {
    ComponentsMeaning(name);
    ForbiddenMeaning(name);
  }

  /** The checker's answer, without its order: rules on the code points the string iterates as. */
  lemma ViolationMeaning(name: JsString)
    ensures BranchNameViolation(name).None?
            <==> name != [] && Utf8Length(CodePoints(name)) <= MAX_BRANCH_BYTES
                 && AllowedThroughout(CodePoints(name)) && BranchRules(CodePoints(name))
  {
    RulesOnCodePoints(name);
    if BranchNameViolation(name).None? {
      AcceptedObeysRules(name);
    } else if name != [] && Utf8Length(CodePoints(name)) <= MAX_BRANCH_BYTES
              && AllowedThroughout(CodePoints(name)) && BranchRules(name) {
      ObeyingRulesIsAccepted(name);
    }
  }

  /** The checker's rules, in its order, on the code points of a name. */
  predicate Breaks(rule: nat, p: Text) {
    match rule
    case 0 => p == []
    case 1 => |TextBytes(p)| > 255
    case 2 => StartsWith(p, HYPHEN)
    case 3 => Includes(p, PERIODS)
    case 4 => Includes(p, AT_BRACE) || p == AT
    case 5 => !AllowedThroughout(p)
    case 6 => StartsWith(p, SLASH) || EndsWith(p, SLASH) || Includes(p, SLASHES)
    case 7 => EndsWith(p, PERIOD)
    case 8 => HasBadComponent(p)
    case _ => false
  }

  /** Some part between slashes begins with a period or ends with ".lock". */
  predicate HasBadComponent(p: Text) {
    StartsWith(p, PERIOD) || Includes(p, SLASH_PERIOD) || EndsWith(p, LOCK) || Includes(p, LOCK_SLASH)
  }

  function Complaint(rule: nat): string {
    match rule
    case 0 => "must name a branch or tag"
    case 1 => "must be at most 255 bytes"
    case 2 => "must not start with '-'"
    case 3 => "must not contain '..'"
    case 4 => "must not contain '@{' or be '@'"
    case 5 => "must not contain control characters, spaces, or any of ~^:?*[\\"
    case 6 => "must not start or end with '/' or contain '//'"
    case 7 => "must not end with '.'"
    case _ => "no component may start with '.' or end with '.lock'"
  }

  /** As the checker asks, most of them on code units. */
  predicate BreaksOnUnits(rule: nat, name: JsString) {
    match rule
    case 0 => name == []
    case 1 => Utf8Length(CodePoints(name)) > MAX_BRANCH_BYTES
    case 5 => HasForbiddenCharacter(name)
    case 8 =>
      SomeStartsWith(Split(name, SLASH_CHARACTER), PERIOD) || SomeEndsWith(Split(name, SLASH_CHARACTER), LOCK)
    case _ => Breaks(rule, name)
  }

  lemma EdgeAgrees(name: JsString, w: Text)
    requires w in [HYPHEN, SLASH, PERIOD]
    ensures StartsWith(name, w) <==> StartsWith(CodePoints(name), w)
    ensures EndsWith(name, w) <==> EndsWith(CodePoints(name), w)
  {
    CodePointsAgree(name, w);
  }

  lemma InsideAgrees(name: JsString, w: Text)
    requires w in [PERIODS, SLASHES, AT_BRACE]
    ensures Includes(name, w) <==> Includes(CodePoints(name), w)
  {
    CodePointsAgree(name, w);
  }

  lemma SlashesAgree(name: JsString)
    ensures Breaks(6, name) <==> Breaks(6, CodePoints(name))
  {
    EdgeAgrees(name, SLASH);
    InsideAgrees(name, SLASHES);
  }

  lemma EdgesAgree(name: JsString)
    ensures Breaks(2, name) <==> Breaks(2, CodePoints(name))
    ensures Breaks(7, name) <==> Breaks(7, CodePoints(name))
  {
    EdgeAgrees(name, HYPHEN);
    EdgeAgrees(name, PERIOD);
  }

  lemma PeriodsAgree(name: JsString)
    ensures Breaks(3, name) <==> Breaks(3, CodePoints(name))
  {
    InsideAgrees(name, PERIODS);
  }

  lemma AtSignsAgree(name: JsString)
    ensures Breaks(4, name) <==> Breaks(4, CodePoints(name))
  {
    EncodeCodePoints(name);
    EncodeIs(CodePoints(name), AT);
    InsideAgrees(name, AT_BRACE);
  }

  lemma BadComponentAgrees(name: JsString)
    ensures HasBadComponent(name) <==> HasBadComponent(CodePoints(name))
  {
    CodePointsAgree(name, PERIOD);
    CodePointsAgree(name, SLASH_PERIOD);
    CodePointsAgree(name, LOCK);
    CodePointsAgree(name, LOCK_SLASH);
  }

  lemma BadComponentMeaning(name: JsString)
    ensures HasBadComponent(name)
            <==> SomeStartsWith(Split(name, SLASH_CHARACTER), PERIOD)
                 || SomeEndsWith(Split(name, SLASH_CHARACTER), LOCK)
  {
    ComponentsMeaning(name);
  }

  lemma RulesAgree(rule: nat, name: JsString)
    requires rule < 9
    ensures BreaksOnUnits(rule, name) <==> Breaks(rule, CodePoints(name))
  {
    match rule
    case 0 => EncodeCodePoints(name);
    case 1 => Utf8LengthMeaning(CodePoints(name));
    case 3 => PeriodsAgree(name);
    case 4 => AtSignsAgree(name);
    case 5 => ForbiddenMeaning(name);
    case 6 => SlashesAgree(name);
    case 8 =>
      BadComponentMeaning(name);
      BadComponentAgrees(name);
    case _ => EdgesAgree(name);
  }

  lemma FirstFour(name: JsString)
    requires BreaksOnUnits(0, name) || BreaksOnUnits(1, name) || BreaksOnUnits(2, name) || BreaksOnUnits(3, name)
    ensures BranchNameViolation(name)
            == Some(Complaint(if BreaksOnUnits(0, name) then 0 else if BreaksOnUnits(1, name) then 1
                              else if BreaksOnUnits(2, name) then 2 else 3))
  {
  }

  predicate KeepsFour(name: JsString) {
    !BreaksOnUnits(0, name) && !BreaksOnUnits(1, name) && !BreaksOnUnits(2, name) && !BreaksOnUnits(3, name)
  }

  lemma NextTwo(name: JsString)
    requires KeepsFour(name)
    ensures BreaksOnUnits(4, name) ==> BranchNameViolation(name) == Some(Complaint(4))
    ensures !BreaksOnUnits(4, name) && BreaksOnUnits(5, name) ==> BranchNameViolation(name) == Some(Complaint(5))
  {
  }

  lemma LastThree(name: JsString)
    requires KeepsFour(name) && !BreaksOnUnits(4, name) && !BreaksOnUnits(5, name)
    ensures BreaksOnUnits(6, name) ==> BranchNameViolation(name) == Some(Complaint(6))
    ensures !BreaksOnUnits(6, name) && BreaksOnUnits(7, name) ==> BranchNameViolation(name) == Some(Complaint(7))
    ensures !BreaksOnUnits(6, name) && !BreaksOnUnits(7, name) ==>
              BranchNameViolation(name) == if BreaksOnUnits(8, name) then Some(Complaint(8)) else None
  {
  }

  /** The complaint goes with the first rule broken; none with the end of the rules. */
  lemma Complains(name: JsString, rule: nat)
    requires rule <= 9 && (rule < 9 ==> BreaksOnUnits(rule, name))
    requires forall j: nat :: j < rule ==> !BreaksOnUnits(j, name)
    ensures BranchNameViolation(name) == if rule < 9 then Some(Complaint(rule)) else None
  {
    if rule < 4 {
      FirstFour(name);
    } else {
      assert KeepsFour(name);
      NextTwo(name);
      if rule >= 6 {
        assert !BreaksOnUnits(4, name) && !BreaksOnUnits(5, name);
        LastThree(name);
      }
    }
  }

  lemma LeastBroken(p: Text) returns (rule: nat)
    ensures rule <= 9 && (rule < 9 ==> Breaks(rule, p)) && forall j: nat :: j < rule ==> !Breaks(j, p)
  {
    rule := 0;
    while rule < 9 && !Breaks(rule, p)
      invariant rule <= 9 && forall j: nat :: j < rule ==> !Breaks(j, p)
    {
      rule := rule + 1;
    }
  }

  /** What the checker says of a name is the first of the rules it breaks, on code points; none is broken but then. */
  lemma FirstBroken(name: JsString) returns (rule: nat)
    ensures var p := CodePoints(name);
            && rule <= 9 && (rule < 9 ==> Breaks(rule, p)) && (forall j: nat :: j < rule ==> !Breaks(j, p))
            && BranchNameViolation(name) == if rule < 9 then Some(Complaint(rule)) else None
  {
    rule := LeastBroken(CodePoints(name));
    forall j: nat | j < rule
      ensures !BreaksOnUnits(j, name)
    {
      RulesAgree(j, name);
    }
    if rule < 9 {
      RulesAgree(rule, name);
    }
    Complains(name, rule);
  }

  /** What look-ahead `k` refuses. */
  predicate Refused(k: nat, p: seq<int>) {
    match k
    case 0 => StartsWith(p, HYPHEN)
    case 1 => StartsWith(p, SLASH)
    case 2 => EndsWith(p, SLASH)
    case 3 => EndsWith(p, PERIOD)
    case 4 => Includes(p, PERIODS)
    case 5 => Includes(p, SLASHES)
    case 6 => Includes(p, AT_BRACE)
    case 7 => p == AT
    case 8 => StartsWith(p, PERIOD) || Includes(p, SLASH_PERIOD)
    case _ => Includes(p, LOCK_SLASH) || EndsWith(p, LOCK)
  }

  lemma FirstLookAheads(k: nat, p: seq<int>)
    requires k < 5
    ensures CanMatch(BRANCH_LOOK_AHEADS[k], p, 0) <==> Refused(k, FirstLine(p))
  {
    match k
    case 0 => AheadLetters(p, HYPHEN);
    case 1 => AheadLetters(p, SLASH);
    case 2 => AheadEndsWith(p, SLASH);
    case 3 => AheadEndsWith(p, PERIOD);
    case _ => AheadIncludes(p, PERIODS);
  }

  lemma LastLookAheads(k: nat, p: seq<int>)
    requires 5 <= k < |BRANCH_LOOK_AHEADS|
    ensures CanMatch(BRANCH_LOOK_AHEADS[k], p, 0) <==> Refused(k, FirstLine(p))
  {
    match k
    case 5 => AheadIncludes(p, SLASHES);
    case 6 => AheadIncludes(p, AT_BRACE);
    case 7 => AheadWhole(p, AT);
    case 8 =>
      AheadComponentPrefix(p, SLASH_CHARACTER, PERIOD);
      assert [SLASH_CHARACTER] + PERIOD == SLASH_PERIOD;
    case _ =>
      AheadClosed(p, LOCK, SLASH_CHARACTER);
      assert LOCK + [SLASH_CHARACTER] == LOCK_SLASH;
  }

  /** Each look-ahead of the pattern, as a search of the first line. */
  lemma LookAheadMeaning(k: nat, p: seq<int>)
    requires k < |BRANCH_LOOK_AHEADS|
    ensures CanMatch(BRANCH_LOOK_AHEADS[k], p, 0) <==> Refused(k, FirstLine(p))
  {
    if k < 5 {
      FirstLookAheads(k, p);
    } else {
      LastLookAheads(k, p);
    }
  }

  lemma RulesRefuse(p: seq<int>)
    ensures BranchRules(p) <==> forall k: nat :: k < |BRANCH_LOOK_AHEADS| ==> !Refused(k, p)
  {
    if forall k: nat :: k < |BRANCH_LOOK_AHEADS| ==> !Refused(k, p) {
      assert !Refused(0, p) && !Refused(1, p) && !Refused(2, p) && !Refused(3, p) && !Refused(4, p);
      assert !Refused(5, p) && !Refused(6, p) && !Refused(7, p) && !Refused(8, p) && !Refused(9, p);
    }
  }

  /** Exactly what the pattern accepts: its multi-character rules see the first line only. */
  lemma PatternMeaning(p: Text)
    ensures Test(BRANCH_PATTERN, p) <==> 1 <= |p| <= 255 && AllowedThroughout(p) && BranchRules(FirstLine(p))
  {
    TestValidation(BRANCH_LOOK_AHEADS, EXCLUDED, true, 1, 255, p);
    forall k: nat | k < |BRANCH_LOOK_AHEADS|
      ensures CanMatch(BRANCH_LOOK_AHEADS[k], p, 0) <==> Refused(k, FirstLine(p))
    {
      LookAheadMeaning(k, p);
    }
    RulesRefuse(FirstLine(p));
    forall k | 0 <= k < |p|
      ensures InClass(p[k], EXCLUDED, true) <==> !IsForbidden(p[k])
    {
      CharacterAllowed(p[k]);
    }
  }

  // ----- Where the two definitions agree.

  lemma {:induction false} Utf8AtLeastOneEach(p: Text)
    ensures Utf8Length(p) >= |p|
  {
    if p != [] {
      Utf8AtLeastOneEach(p[1..]);
    }
  }

  /** A rule broken on the first line is broken. */
  lemma FirstLineKeepsRules(p: seq<int>)
    requires BranchRules(p)
    ensures BranchRules(FirstLine(p))
  {
    var line := FirstLine(p);
    WholeFirstLine(p, AT);
    forall w, i | OccursAt(line, w, i)
      ensures OccursAt(p, w, i)
    {
      assert line[i..i + |w|] == p[i..i + |w|];
    }
    EndOfFirstLine(p, SLASH);
    EndOfFirstLine(p, PERIOD);
    EndOfFirstLine(p, LOCK);
  }

  /** Whatever the checker accepts, the pattern accepts, for every string. */
  lemma CheckerImpliesPattern(name: JsString)
    requires BranchNameViolation(name).None?
    ensures Test(BRANCH_PATTERN, CodePoints(name))
  {
    var p := CodePoints(name);
    ViolationMeaning(name);
    PatternMeaning(p);
    Utf8AtLeastOneEach(p);
    FirstLineKeepsRules(p);
    EncodeCodePoints(name);
  }

  /** No U+2028 or U+2029. */
  predicate NoSeparators(p: Text) {
    LINE_SEPARATOR !in p && PARAGRAPH_SEPARATOR !in p
  }

  /** With no separator in it, a name the pattern accepts is refused only for its length in bytes. */
  lemma PatternAndChecker(name: JsString)
    requires NoSeparators(CodePoints(name))
    ensures BranchNameViolation(name).None?
            <==> Test(BRANCH_PATTERN, CodePoints(name)) && Utf8Length(CodePoints(name)) <= MAX_BRANCH_BYTES
  {
    var p := CodePoints(name);
    ViolationMeaning(name);
    PatternMeaning(p);
    Utf8AtLeastOneEach(p);
    EncodeCodePoints(name);
    if AllowedThroughout(p) {
      forall i | 0 <= i < |p|
        ensures !IsLineTerminator(p[i])
      {
        assert p[i] in p;
      }
      FirstLineIsAll(p);
    }
  }

  /**
   The disagreement in full: a name only the pattern accepts is too long in bytes, or breaks a rule
   beyond its first line separator.
   */
  lemma PatternOnly(name: JsString)
    ensures Test(BRANCH_PATTERN, CodePoints(name)) && BranchNameViolation(name).Some?
            <==> 1 <= |CodePoints(name)| <= 255 && AllowedThroughout(CodePoints(name))
                 && BranchRules(FirstLine(CodePoints(name)))
                 && (Utf8Length(CodePoints(name)) > MAX_BRANCH_BYTES || !BranchRules(CodePoints(name)))
  {
    ViolationMeaning(name);
    PatternMeaning(CodePoints(name));
    EncodeCodePoints(name);
  }

  /** Such names exist: U+2028 hides the double period after it from every look-ahead. */
  lemma SeparatorHidesPeriods()
    ensures var name := [LINE_SEPARATOR, 0x2E, 0x2E, 0x61];
            Test(BRANCH_PATTERN, CodePoints(name)) && BranchNameViolation(name) == Some("must not contain '..'")
  {
    var name: JsString := [LINE_SEPARATOR, 0x2E, 0x2E, 0x61];
    HiddenPeriods();
    PatternMeaning(name);
    assert OccursAt(name, PERIODS, 1);
  }

  lemma HiddenPeriods()
    ensures var name: JsString := [LINE_SEPARATOR, 0x2E, 0x2E, 0x61];
            CodePoints(name) == name && FirstLine(name) == [LINE_SEPARATOR] && Utf8Length(name) == 6
  {
    var name: JsString := [LINE_SEPARATOR, 0x2E, 0x2E, 0x61];
    assert CodePoints(name) == name by {
      assert CodePoints(name[3..]) == name[3..];
      assert CodePoints(name[2..]) == name[2..];
      assert CodePoints(name[1..]) == name[1..];
    }
    assert Utf8Length(name) == 6 by {
      assert Utf8Length(name[3..]) == 1 && Utf8Length(name[2..]) == 2 && Utf8Length(name[1..]) == 3;
    }
  }
}
