/**
 Deriving, checking and suggesting slugs (web/src/shared/domain/slug.ts and
 web/src/modules/identity/domain/signup.ts). Decomposing, dropping marks and lower-casing is a parameter.
 */
module Slugs {
  import opened Options
  import opened JsStrings
  import opened Regex

  const MAX_SLUG_LENGTH: nat := 63
  const HYPHEN: Unit := 0x2D

  /** `normalize("NFKD")`, then marks out, then `toLowerCase()`. */
  type Folding = JsString -> JsString

  predicate IsAlnum(u: int) { 0x61 <= u <= 0x7A || 0x30 <= u <= 0x39 }

  const ALNUM: seq<Range> := [Range(0x61, 0x7A), Range(0x30, 0x39)]

  const WORD := Repeat(Class(ALNUM, false), 1, None)
  const HYPHENED_WORD := Sequence([Exactly(HYPHEN), WORD])
  const HYPHENED_WORDS := Repeat(HYPHENED_WORD, 0, None)

  /** `/^[a-z0-9]+(-[a-z0-9]+)*$/` */
  const SLUG_PATTERN := Sequence([AtStart, WORD, HYPHENED_WORDS, AtEnd])

  /** What follows a run of other characters. */
  function SkipOthers(s: JsString): (r: JsString)
    ensures |r| <= |s| && (s != [] && !IsAlnum(s[0]) ==> |r| < |s|)
  {
    if s != [] && !IsAlnum(s[0]) then SkipOthers(s[1..]) else s
  }

  /** `.replace(/[^a-z0-9]+/g, "-")` */
  function Hyphenated(s: JsString): JsString
    decreases |s|
  {
    if s == [] then []
    else if IsAlnum(s[0]) then [s[0]] + Hyphenated(s[1..])
    else [HYPHEN] + Hyphenated(SkipOthers(s))
  }

  /** `.replace(/^-+/, "")` */
  function StripStart(s: JsString): JsString {
    if s != [] && s[0] == HYPHEN then StripStart(s[1..]) else s
  }

  /** `.replace(/-+$/, "")` */
  function StripEnd(s: JsString): JsString {
    if s != [] && s[|s| - 1] == HYPHEN then StripEnd(s[..|s| - 1]) else s
  }

  function Cut(s: JsString): JsString { if |s| <= MAX_SLUG_LENGTH then s else s[..MAX_SLUG_LENGTH] }

  function SlugFromName(name: JsString, fold: Folding): JsString {
    StripEnd(Cut(StripEnd(StripStart(Hyphenated(fold(name))))))
  }

  /** A letter or digit, or a hyphen with one after it. */
  predicate InPlace(s: seq<int>, k: nat)
    requires k < |s|
  {
    IsAlnum(s[k]) || (s[k] == HYPHEN && k + 1 < |s| && IsAlnum(s[k + 1]))
  }

  /** Words of letters and digits, single hyphens between. */
  predicate IsSlug(s: seq<int>) {
    s != [] && IsAlnum(s[0])
    && forall k :: 0 <= k < |s| ==> InPlace(s, k)
  }

  // ----- The pattern says the same.

  lemma InAlnum(c: int)
    ensures InClass(c, ALNUM, false) <==> IsAlnum(c)
  {
    assert ALNUM[0] == Range(0x61, 0x7A) && ALNUM[1] == Range(0x30, 0x39);
  }

  lemma WordMatches(s: seq<int>, i: nat, j: nat)
    requires i <= |s|
    ensures Matches(WORD, s, i, j) <==> i < j <= |s| && forall k :: i <= k < j ==> IsAlnum(s[k])
  {
    RepeatClass(ALNUM, false, 1, None, s, i, j);
    forall k | i <= k < j && j <= |s|
      ensures InClass(s[k], ALNUM, false) <==> IsAlnum(s[k])
    {
      InAlnum(s[k]);
    }
  }

  lemma HyphenedWordMatches(s: seq<int>, i: nat, j: nat)
    requires i <= |s|
    ensures Matches(HYPHENED_WORD, s, i, j)
            <==> i < |s| && s[i] == HYPHEN && i + 1 < j <= |s| && forall k :: i < k < j ==> IsAlnum(s[k])
  {
    assert [Exactly(HYPHEN), WORD] == [Exactly(HYPHEN)] + [WORD];
    MatchesFirst(Exactly(HYPHEN), [WORD], s, i, j);
    if i < |s| {
      InExactly(s[i], HYPHEN);
      MatchesOne(WORD, s, i + 1, j);
      WordMatches(s, i + 1, j);
      assert Matches(Exactly(HYPHEN), s, i, i + 1) <==> s[i] == HYPHEN;
    }
  }

  /** From `i` on: hyphens each followed by a word. */
  ghost predicate Tail(s: seq<int>, i: nat) {
    i <= |s| && (i < |s| ==> s[i] == HYPHEN)
    && forall k :: i <= k < |s| ==> InPlace(s, k)
  }

  lemma {:induction false} TimesTail(n: nat, s: seq<int>, i: nat)
    requires i <= |s| && MatchesTimes(HYPHENED_WORD, n, s, i, |s|)
    ensures Tail(s, i)
    decreases n
  {
    if n > 0 {
      TimesFirst(HYPHENED_WORD, n, s, i, |s|);
      var k: nat :| Matches(HYPHENED_WORD, s, i, k) && MatchesTimes(HYPHENED_WORD, n - 1, s, k, |s|);
      HyphenedWordMatches(s, i, k);
      TimesTail(n - 1, s, k);
    }
  }

  function WordEnd(s: seq<int>, i: nat): (j: nat)
    requires i <= |s|
    ensures i <= j <= |s| && (forall k :: i <= k < j ==> IsAlnum(s[k])) && (j < |s| ==> !IsAlnum(s[j]))
    decreases |s| - i
  {
    if i < |s| && IsAlnum(s[i]) then WordEnd(s, i + 1) else i
  }

  lemma {:induction false} TailTimes(s: seq<int>, i: nat) returns (n: nat)
    requires Tail(s, i)
    ensures MatchesTimes(HYPHENED_WORD, n, s, i, |s|)
    decreases |s| - i
  {
    n := 0;
    if i < |s| {
      var j := WordEnd(s, i + 1);
      assert InPlace(s, i) && (j < |s| ==> InPlace(s, j));
      HyphenedWordMatches(s, i, j);
      n := TailTimes(s, j);
      n := n + 1;
      TimesFirst(HYPHENED_WORD, n, s, i, |s|);
    }
  }

  lemma RestMatches(s: seq<int>, k: nat, j: nat)
    requires k <= |s|
    ensures MatchesAll([HYPHENED_WORDS, AtEnd], s, k, j) <==> j == |s| && Tail(s, k)
  {
    var rest := [HYPHENED_WORDS, AtEnd];
    MatchesAllFirst(rest, s, k, j);
    assert rest[1..] == [AtEnd];
    forall m: nat {
      MatchesOne(AtEnd, s, m, j);
    }
    if m: nat :| Matches(HYPHENED_WORDS, s, k, m) && MatchesAll([AtEnd], s, m, j) {
      var n: nat :| MatchesTimes(HYPHENED_WORD, n, s, k, m);
      TimesTail(n, s, k);
    }
    if Tail(s, k) {
      var n := TailTimes(s, k);
      assert Matches(HYPHENED_WORDS, s, k, |s|);
      MatchesOne(AtEnd, s, |s|, |s|);
    }
  }

  lemma PatternMatches(s: seq<int>, i: nat, j: nat)
    ensures Matches(SLUG_PATTERN, s, i, j) <==> i == 0 && j == |s| && IsSlug(s)
  {
    var rest := [HYPHENED_WORDS, AtEnd];
    var items := [WORD] + rest;
    assert [AtStart] + items == SLUG_PATTERN.items && items[1..] == rest;
    MatchesFirst(AtStart, items, s, i, j);
    MatchesAllFirst(items, s, 0, j);
    forall k: nat | k <= |s|
      ensures Matches(WORD, s, 0, k) && MatchesAll(rest, s, k, j)
              <==> 0 < k && (forall m :: 0 <= m < k ==> IsAlnum(s[m])) && j == |s| && Tail(s, k)
    {
      WordMatches(s, 0, k);
      RestMatches(s, k, j);
    }
    forall k: nat
      ensures Matches(WORD, s, 0, k) ==> k <= |s|
    {
      WordMatches(s, 0, k);
    }
    if IsSlug(s) && j == |s| {
      var k := WordEnd(s, 0);
      assert k < |s| ==> InPlace(s, k);
      WordMatches(s, 0, k);
      RestMatches(s, k, j);
      assert Matches(WORD, s, 0, k) && MatchesAll(rest, s, k, j);
    }
    assert Matches(AtStart, s, i, 0) <==> i == 0;
  }

  /** The pattern accepts exactly words of letters and digits with single hyphens between. */
  lemma PatternIsSlug(s: seq<int>)
    ensures Test(SLUG_PATTERN, s) <==> IsSlug(s)
  {
    forall i: nat, j: nat {
      PatternMatches(s, i, j);
    }
    if IsSlug(s) {
      assert Matches(SLUG_PATTERN, s, 0, |s|) && CanMatch(SLUG_PATTERN, s, 0);
    }
  }

  // ----- What is derived from a name.

  /** The maximal runs of letters and digits. */
  function Words(s: JsString): seq<JsString>
    decreases |s|
  {
    if s == [] then []
    else if !IsAlnum(s[0]) then Words(s[1..])
    else var end := WordEnd(s, 0); assert IsAlnum(s[0]) && end > 0; [s[..end]] + Words(s[end..])
  }

  lemma {:induction false} SkippedWords(s: JsString)
    ensures Words(SkipOthers(s)) == Words(s)
    ensures SkipOthers(s) == [] || IsAlnum(SkipOthers(s)[0])
  {
    if s != [] && !IsAlnum(s[0]) {
      SkippedWords(s[1..]);
    }
  }

  lemma {:induction false} HyphenatedWord(s: JsString, end: nat)
    requires end <= |s| && forall k :: 0 <= k < end ==> IsAlnum(s[k])
    ensures Hyphenated(s) == s[..end] + Hyphenated(s[end..])
    decreases end
  {
    if end > 0 {
      HyphenatedWord(s[1..], end - 1);
      assert s[1..][end - 1..] == s[end..];
      assert s[..end] == [s[0]] + s[1..][..end - 1];
    } else {
      assert s[end..] == s;
    }
  }

  lemma {:induction false} StripEndConcat(a: JsString, b: JsString)
    ensures StripEnd(b) != [] ==> StripEnd(a + b) == a + StripEnd(b)
    ensures StripEnd(b) == [] ==> StripEnd(a + b) == StripEnd(a)
    decreases |b|
  {
    if b == [] {
      assert a + b == a;
    } else {
      var n := |b| - 1;
      assert (a + b)[|a + b| - 1] == b[n] && (a + b)[..|a + b| - 1] == a + b[..n];
      StripEndConcat(a, b[..n]);
    }
  }

  /** A word, a hyphen and what follows: the hyphen stays when something of what follows does. */
  lemma StripAfterWord(word: JsString, rest: JsString)
    requires word != [] && IsAlnum(word[|word| - 1])
    ensures StripEnd(word + [HYPHEN] + rest)
            == if StripEnd(rest) == [] then word else word + [HYPHEN] + StripEnd(rest)
  {
    StripEndConcat(word + [HYPHEN], rest);
    assert (word + [HYPHEN])[..|word|] == word;
  }

  lemma JoinCons(word: JsString, words: seq<JsString>)
    ensures Join([word] + words, HYPHEN) == if words == [] then word else word + [HYPHEN] + Join(words, HYPHEN)
  {
    assert ([word] + words)[1..] == words;
  }

  lemma {:induction false} StrippedIsJoined(s: JsString)
    requires s == [] || IsAlnum(s[0])
    ensures StripEnd(Hyphenated(s)) == Join(Words(s), HYPHEN)
    ensures s != [] ==> StripEnd(Hyphenated(s)) != [] && Words(s) != []
    decreases |s|
  {
    if s != [] {
      var end := WordEnd(s, 0);
      var word, rest := s[..end], s[end..];
      HyphenatedWord(s, end);
      JoinCons(word, Words(rest));
      assert word[end - 1] == s[end - 1];
      if rest == [] {
        assert Hyphenated(s) == word;
      } else {
        assert rest[0] == s[end];
        var next := SkipOthers(rest);
        SkippedWords(rest);
        StrippedIsJoined(next);
        StripAfterWord(word, Hyphenated(next));
        assert Hyphenated(s) == word + [HYPHEN] + Hyphenated(next);
      }
    }
  }

  lemma StartStripped(s: JsString)
    ensures StripStart(Hyphenated(s)) == Hyphenated(SkipOthers(s))
  {
    SkippedWords(s);
    var next := SkipOthers(s);
    assert next != [] ==> Hyphenated(next)[0] == next[0];
    if s != [] && !IsAlnum(s[0]) {
      assert Hyphenated(s)[1..] == Hyphenated(next);
    }
  }

  /** A slug is the words of the folded name joined by hyphens, cut to length without leaving a hyphen at the end. */
  lemma SlugIsJoinedWords(name: JsString, fold: Folding)
    ensures var whole, slug := Join(Words(fold(name)), HYPHEN), SlugFromName(name, fold);
            && slug <= whole
            && (|whole| <= 63 ==> slug == whole)
            && (|whole| > 63 ==> |slug| == if whole[62] == HYPHEN then 62 else 63)
  {
    var folded := fold(name);
    var whole := StripEnd(Hyphenated(SkipOthers(folded)));
    StartStripped(folded);
    SkippedWords(folded);
    StrippedIsJoined(SkipOthers(folded));
    StrippedShape(folded);
    CutShape(whole);
    if |whole| > MAX_SLUG_LENGTH {
      SpacedSlug(whole);
      assert Between(whole, MAX_SLUG_LENGTH - 2);
    }
  }

  /** Letters, digits and hyphens, no two hyphens together. */
  predicate Spaced(s: seq<int>) {
    forall k :: 0 <= k < |s| ==> Between(s, k)
  }

  predicate Between(s: seq<int>, k: nat)
    requires k < |s|
  {
    IsAlnum(s[k]) || (s[k] == HYPHEN && (k + 1 < |s| ==> IsAlnum(s[k + 1])))
  }

  lemma SpacedSlug(s: seq<int>)
    ensures IsSlug(s) <==> s != [] && IsAlnum(s[0]) && IsAlnum(s[|s| - 1]) && Spaced(s)
  {
    if IsSlug(s) {
      assert InPlace(s, |s| - 1);
      forall k | 0 <= k < |s|
        ensures Between(s, k)
      {
        assert InPlace(s, k);
      }
    }
    if s != [] && IsAlnum(s[0]) && IsAlnum(s[|s| - 1]) && Spaced(s) {
      forall k | 0 <= k < |s|
        ensures InPlace(s, k)
      {
        assert Between(s, k);
      }
    }
  }

  lemma {:induction false} HyphenatedSpaced(s: JsString)
    ensures Spaced(Hyphenated(s))
    decreases |s|
  {
    if s != [] {
      var rest := if IsAlnum(s[0]) then Hyphenated(s[1..]) else Hyphenated(SkipOthers(s));
      if IsAlnum(s[0]) {
        HyphenatedSpaced(s[1..]);
      } else {
        HyphenatedSpaced(SkipOthers(s));
        SkippedWords(s);
      }
      forall k | 0 <= k < |Hyphenated(s)|
        ensures Between(Hyphenated(s), k)
      {
        if k > 0 {
          assert Hyphenated(s)[1..] == rest;
          assert Between(rest, k - 1);
        }
      }
    }
  }

  lemma SpacedPrefix(s: seq<int>, n: nat)
    requires n <= |s| && Spaced(s)
    ensures Spaced(s[..n])
  {
    forall k | 0 <= k < n
      ensures Between(s[..n], k)
    {
      assert Between(s, k);
    }
  }

  lemma {:induction false} StripEndShape(s: JsString)
    ensures StripEnd(s) <= s && (StripEnd(s) == [] || StripEnd(s)[|StripEnd(s)| - 1] != HYPHEN)
    ensures s != [] && s[|s| - 1] != HYPHEN ==> StripEnd(s) == s
    ensures s != [] && IsAlnum(s[0]) ==> StripEnd(s) != []
  {
    if s != [] && s[|s| - 1] == HYPHEN {
      StripEndShape(s[..|s| - 1]);
    }
  }

  lemma StrippedShape(s: JsString)
    ensures var whole := StripEnd(Hyphenated(SkipOthers(s))); whole == [] || IsSlug(whole)
  {
    var next := SkipOthers(s);
    SkippedWords(s);
    HyphenatedSpaced(next);
    StripEndShape(Hyphenated(next));
    var whole := StripEnd(Hyphenated(next));
    SpacedPrefix(Hyphenated(next), |whole|);
    assert whole == Hyphenated(next)[..|whole|];
    if whole != [] {
      assert Between(whole, |whole| - 1);
      assert whole[0] == Hyphenated(next)[0] == next[0];
      SpacedSlug(whole);
    }
  }

  /** Cutting a slug leaves a slug once a hyphen the cut lands on is gone. */
  lemma CutShape(s: JsString)
    requires s == [] || IsSlug(s)
    ensures var cut := StripEnd(Cut(s));
            && (s == [] ==> cut == [])
            && (s != [] ==> IsSlug(cut))
            && cut <= s && |cut| <= MAX_SLUG_LENGTH
            && (|s| <= MAX_SLUG_LENGTH ==> cut == s)
  {
    if s != [] {
      SpacedSlug(s);
      var cut := StripEnd(Cut(s));
      StripEndShape(Cut(s));
      SpacedPrefix(s, |cut|);
      assert cut == s[..|cut|];
      assert Between(cut, |cut| - 1);
      SpacedSlug(cut);
    }
  }

  /** What a name gives is empty or a slug of at most 63 characters. */
  lemma SlugFromNameValid(name: JsString, fold: Folding)
    ensures var slug := SlugFromName(name, fold); slug == [] || (IsSlug(slug) && |slug| <= 63)
    ensures SlugFromName(name, fold) == [] <==> forall k :: 0 <= k < |fold(name)| ==> !IsAlnum(fold(name)[k])
  {
    var folded := fold(name);
    StartStripped(folded);
    StrippedShape(folded);
    CutShape(StripEnd(Hyphenated(SkipOthers(folded))));
    NoWords(folded);
    StripEndShape(Hyphenated(SkipOthers(folded)));
  }

  lemma {:induction false} NoWords(s: JsString)
    ensures SkipOthers(s) == [] <==> forall k :: 0 <= k < |s| ==> !IsAlnum(s[k])
    ensures SkipOthers(s) != [] ==> Hyphenated(SkipOthers(s)) != [] && IsAlnum(Hyphenated(SkipOthers(s))[0])
  {
    if s != [] && !IsAlnum(s[0]) {
      NoWords(s[1..]);
      assert forall k :: 1 <= k < |s| ==> s[k] == s[1..][k - 1];
    }
  }

  /** Decomposing and lower-casing leave lower-case letters, digits and hyphens alone. */
  ghost predicate KeepsPlain(fold: Folding) {
    forall s: JsString :: (forall k :: 0 <= k < |s| ==> IsAlnum(s[k]) || s[k] == HYPHEN) ==> fold(s) == s
  }

  lemma {:induction false} HyphenatedSame(s: JsString)
    requires Spaced(s)
    ensures Hyphenated(s) == s
  {
    if s != [] {
      assert Between(s, 0);
      forall k | 0 <= k < |s[1..]|
        ensures Between(s[1..], k)
      {
        assert Between(s, k + 1);
      }
      HyphenatedSame(s[1..]);
      if !IsAlnum(s[0]) {
        assert SkipOthers(s[1..]) == s[1..];
      }
    }
  }

  /** Every valid slug is its own slug. */
  lemma SlugOfSlug(slug: JsString, fold: Folding)
    requires KeepsPlain(fold) && IsSlug(slug) && |slug| <= 63
    ensures SlugFromName(slug, fold) == slug
  {
    SpacedSlug(slug);
    forall k | 0 <= k < |slug|
      ensures IsAlnum(slug[k]) || slug[k] == HYPHEN
    {
      assert Between(slug, k);
    }
    HyphenatedSame(slug);
    StripEndShape(slug);
  }

  lemma SlugIdempotent(name: JsString, fold: Folding)
    requires KeepsPlain(fold)
    ensures SlugFromName(SlugFromName(name, fold), fold) == SlugFromName(name, fold)
  {
    SlugFromNameValid(name, fold);
    var slug := SlugFromName(name, fold);
    if slug != [] {
      SlugOfSlug(slug, fold);
    }
  }

  // ----- Alternatives to a taken slug.

  const MAX_SUGGESTIONS: nat := 2
  const HQ: JsString := [0x2D, 0x68, 0x71]         // -hq
  const TEAM: JsString := [0x2D, 0x74, 0x65, 0x61, 0x6D] // -team
  const APP: JsString := [0x2D, 0x61, 0x70, 0x70]  // -app

  /** At least one character, at most 63, and the pattern. */
  ghost predicate IsValidSlug(slug: JsString) {
    1 <= |slug| <= MAX_SLUG_LENGTH && Test(SLUG_PATTERN, slug)
  }

  function Candidates(taken: JsString, organizationName: JsString, fold: Folding): seq<JsString> {
    [SlugFromName(organizationName, fold), taken + HQ, taken + TEAM, taken + APP]
  }

  predicate Distinct(all: seq<JsString>) {
    forall i, j :: 0 <= i < j < |all| ==> all[i] != all[j]
  }

  /** The values in the order a `Set` first meets them. */
  function Unique(all: seq<JsString>): (once: seq<JsString>)
    ensures forall c :: c in once <==> c in all
    ensures Distinct(once)
    ensures all != [] ==> once != [] && once[0] == all[0]
  {
    if all == [] then []
    else
      var before := Unique(all[..|all| - 1]);
      var last := all[|all| - 1];
      assert all == all[..|all| - 1] + [last];
      if last in before then before else before + [last]
  }

  ghost predicate Suggestible(candidate: JsString, taken: JsString) {
    candidate != taken && IsValidSlug(candidate)
  }

  ghost function OnlySuggestible(all: seq<JsString>, taken: JsString): (kept: seq<JsString>)
    ensures forall c :: c in kept <==> c in all && Suggestible(c, taken)
    ensures all != [] && Suggestible(all[0], taken) ==> kept != [] && kept[0] == all[0]
  {
    if all == [] then []
    else (if Suggestible(all[0], taken) then [all[0]] else []) + OnlySuggestible(all[1..], taken)
  }

  ghost function SuggestSlugs(taken: JsString, organizationName: JsString, fold: Folding): seq<JsString> {
    FirstTwo(OnlySuggestible(Unique(Candidates(taken, organizationName, fold)), taken))
  }

  function FirstTwo(kept: seq<JsString>): (offered: seq<JsString>)
    ensures |offered| <= MAX_SUGGESTIONS && (|offered| < MAX_SUGGESTIONS ==> offered == kept)
    ensures Distinct(kept) ==> Distinct(offered)
    ensures kept != [] ==> offered != [] && offered[0] == kept[0]
    ensures forall c :: c in offered ==> c in kept
  {
    if |kept| <= MAX_SUGGESTIONS then kept else kept[..MAX_SUGGESTIONS]
  }

  lemma DistinctCons(first: JsString, rest: seq<JsString>)
    requires Distinct(rest) && first !in rest
    ensures Distinct([first] + rest)
  {
  }

  lemma DistinctTail(all: seq<JsString>)
    requires all != [] && Distinct(all)
    ensures Distinct(all[1..]) && all[0] !in all[1..]
  {
  }

  lemma {:induction false} KeptAreDistinct(all: seq<JsString>, taken: JsString)
    requires Distinct(all)
    ensures Distinct(OnlySuggestible(all, taken))
  {
    if all != [] {
      DistinctTail(all);
      KeptAreDistinct(all[1..], taken);
      if Suggestible(all[0], taken) {
        DistinctCons(all[0], OnlySuggestible(all[1..], taken));
      }
    }
  }

  lemma ValidSlugMeaning(slug: JsString)
    ensures IsValidSlug(slug) <==> IsSlug(slug) && |slug| <= 63
  {
    PatternIsSlug(slug);
  }

  /** At most two distinct valid slugs, none the taken one; fewer than two only when nothing else could be offered. */
  lemma SuggestionsMeaning(taken: JsString, organizationName: JsString, fold: Folding)
    ensures var offered := SuggestSlugs(taken, organizationName, fold);
            |offered| <= 2 && Distinct(offered)
    ensures forall c :: c in SuggestSlugs(taken, organizationName, fold)
              ==> c in Candidates(taken, organizationName, fold) && c != taken && IsSlug(c) && |c| <= 63
    ensures |SuggestSlugs(taken, organizationName, fold)| == 2
            || forall c :: c in Candidates(taken, organizationName, fold) && Suggestible(c, taken)
                 ==> c in SuggestSlugs(taken, organizationName, fold)
    ensures var derived := SlugFromName(organizationName, fold);
            Suggestible(derived, taken) ==>
              var offered := SuggestSlugs(taken, organizationName, fold); offered != [] && offered[0] == derived
  {
    var all := Candidates(taken, organizationName, fold);
    var kept := OnlySuggestible(Unique(all), taken);
    KeptAreDistinct(Unique(all), taken);
    forall c | c in kept
      ensures c in all && c != taken && IsSlug(c) && |c| <= 63
    {
      ValidSlugMeaning(c);
    }
    assert SuggestSlugs(taken, organizationName, fold) == FirstTwo(kept);
  }

  lemma SuffixedSlug(slug: JsString, suffix: JsString)
    requires IsSlug(slug) && suffix in {HQ, TEAM, APP}
    ensures IsSlug(slug + suffix)
  {
    SpacedSlug(slug);
    forall k | 0 <= k < |slug + suffix|
      ensures InPlace(slug + suffix, k)
    {
      if k < |slug| {
        assert InPlace(slug, k);
      } else {
        assert (slug + suffix)[k] == suffix[k - |slug|];
      }
    }
  }

  lemma Alternative(taken: JsString, suffix: JsString)
    requires IsValidSlug(taken) && suffix in {HQ, TEAM, APP} && |taken| + |suffix| <= MAX_SLUG_LENGTH
    ensures Suggestible(taken + suffix, taken)
  {
    ValidSlugMeaning(taken);
    SuffixedSlug(taken, suffix);
    ValidSlugMeaning(taken + suffix);
  }

  lemma AlternativesDiffer(taken: JsString)
    ensures taken + HQ != taken + APP
  {
    assert |taken + HQ| != |taken + APP|;
  }

  lemma TwoAreTwo(offered: seq<JsString>, a: JsString, b: JsString)
    requires a != b
    ensures a in offered && b in offered ==> |offered| >= 2
  {
  }

  lemma IsCandidate(taken: JsString, organizationName: JsString, fold: Folding)
    ensures var all := Candidates(taken, organizationName, fold); taken + HQ in all && taken + APP in all
  {
    var all := Candidates(taken, organizationName, fold);
    assert all[1] == taken + HQ && all[3] == taken + APP;
  }

  /** A taken slug with room for a suffix always gets its two alternatives. */
  lemma TakenSlugGetsTwo(taken: JsString, organizationName: JsString, fold: Folding)
    requires IsValidSlug(taken) && |taken| + 4 <= 63
    ensures |SuggestSlugs(taken, organizationName, fold)| == 2
  {
    Alternative(taken, HQ);
    Alternative(taken, APP);
    AlternativesDiffer(taken);
    IsCandidate(taken, organizationName, fold);
    SuggestionsMeaning(taken, organizationName, fold);
    TwoAreTwo(SuggestSlugs(taken, organizationName, fold), taken + HQ, taken + APP);
  }

  // ----- Which alternatives, and in what order.

  /** Where a list first has a value. */
  function FirstIndex(all: seq<JsString>, c: JsString): (k: nat)
    requires c in all
    ensures k < |all| && all[k] == c && c !in all[..k]
  {
    if all[0] == c then 0
    else
      assert all == [all[0]] + all[1..];
      1 + FirstIndex(all[1..], c)
  }

  lemma FirstIndexIs(all: seq<JsString>, k: nat)
    requires k < |all| && all[k] !in all[..k]
    ensures FirstIndex(all, all[k]) == k
  {
  }

  /** A list in the order another first has its values. */
  predicate InOrderOf(list: seq<JsString>, all: seq<JsString>) {
    && (forall i :: 0 <= i < |list| ==> list[i] in all)
    && forall i, j :: 0 <= i < j < |list| ==> FirstIndex(all, list[i]) < FirstIndex(all, list[j])
  }

  lemma LongerOrder(list: seq<JsString>, all: seq<JsString>, last: JsString)
    requires InOrderOf(list, all)
    ensures InOrderOf(list, all + [last])
    ensures last !in all ==> InOrderOf(list + [last], all + [last])
  {
    var longer := all + [last];
    forall c | c in all
      ensures c in longer && FirstIndex(longer, c) == FirstIndex(all, c)
    {
      var k := FirstIndex(all, c);
      assert longer[..k] == all[..k];
      FirstIndexIs(longer, k);
    }
    if last !in all {
      assert longer[..|all|] == all;
      FirstIndexIs(longer, |all|);
    }
  }

  lemma {:induction false} UniqueInOrder(all: seq<JsString>)
    ensures InOrderOf(Unique(all), all)
  {
    if all != [] {
      var init, last := all[..|all| - 1], all[|all| - 1];
      UniqueInOrder(init);
      LongerOrder(Unique(init), init, last);
      assert all == init + [last];
    }
  }

  lemma {:induction false} SuggestibleInOrder(list: seq<JsString>, taken: JsString, all: seq<JsString>)
    requires InOrderOf(list, all)
    ensures InOrderOf(OnlySuggestible(list, taken), all)
  {
    if list != [] {
      SuggestibleInOrder(list[1..], taken, all);
      var kept := OnlySuggestible(list[1..], taken);
      forall j | 0 <= j < |kept|
        ensures FirstIndex(all, list[0]) < FirstIndex(all, kept[j])
      {
        assert kept[j] in list[1..];
        var k :| 0 <= k < |list[1..]| && list[1..][k] == kept[j];
        assert list[k + 1] == kept[j];
      }
    }
  }

  /** The suffixes, character by character. */
  lemma SuffixesRead()
    ensures HQ == Units("-hq") && TEAM == Units("-team") && APP == Units("-app")
  {
  }

  /** In the order of the candidates, the first two that may be suggested: any other such comes after both. */
  ghost predicate OffersFirstTwo(offered: seq<JsString>, all: seq<JsString>, taken: JsString) {
    && InOrderOf(offered, all) && |offered| <= 2
    && (forall c :: c in offered ==> Suggestible(c, taken))
    && forall c :: c in all && Suggestible(c, taken) && c !in offered ==>
         |offered| == 2 && FirstIndex(all, offered[1]) < FirstIndex(all, c)
  }

  lemma FirstTwoOffered(kept: seq<JsString>, all: seq<JsString>, taken: JsString)
    requires InOrderOf(kept, all) && forall c :: c in kept <==> c in all && Suggestible(c, taken)
    ensures OffersFirstTwo(FirstTwo(kept), all, taken)
  {
    forall c | c in kept && c !in FirstTwo(kept)
      ensures |FirstTwo(kept)| == 2 && FirstIndex(all, FirstTwo(kept)[1]) < FirstIndex(all, c)
    {
      var k :| 0 <= k < |kept| && kept[k] == c;
      assert FirstTwo(kept)[1] == kept[1];
    }
  }

  /**
   Offered are the first two, in this order, of the slug of the organization's name and the taken slug with its three
   suffixes that are valid slugs other than the taken one.
   */
  lemma SuggestedExactly(taken: JsString, organizationName: JsString, fold: Folding)
    ensures OffersFirstTwo(SuggestSlugs(taken, organizationName, fold),
                           [SlugFromName(organizationName, fold), taken + HQ, taken + TEAM, taken + APP], taken)
  {
    var all := Candidates(taken, organizationName, fold);
    UniqueInOrder(all);
    SuggestibleInOrder(Unique(all), taken, all);
    FirstTwoOffered(OnlySuggestible(Unique(all), taken), all, taken);
  }
}
