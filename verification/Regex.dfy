/**
 Regular expressions as ECMA-262 section 22.2 gives them meaning, without captures or back-references:
 an expression relates the position a match starts at to every position it can end at.
 */
module Regex {
  import opened Options
  import opened JsStrings

  datatype Range = Range(first: int, last: int)

  datatype Regex =
    | Class(ranges: seq<Range>, negated: bool)
    | Sequence(items: seq<Regex>)
    | Either(left: Regex, right: Regex)
    | Repeat(item: Regex, least: nat, most: Option<nat>)
    | NotAhead(item: Regex)
    | AtStart
    | AtEnd

  predicate InClass(c: int, ranges: seq<Range>, negated: bool) {
    negated != exists k :: 0 <= k < |ranges| && ranges[k].first <= c <= ranges[k].last
  }

  ghost predicate Matches(r: Regex, s: seq<int>, i: nat, j: nat)
    decreases r, 0
  {
    match r
    case Class(ranges, negated) => i < |s| && j == i + 1 && InClass(s[i], ranges, negated)
    case Sequence(items) => MatchesAll(items, s, i, j)
    case Either(left, right) => Matches(left, s, i, j) || Matches(right, s, i, j)
    case Repeat(item, least, most) =>
      exists n: nat :: least <= n && (most.Some? ==> n <= most.value) && MatchesTimes(item, n, s, i, j)
    case NotAhead(item) => i == j && !exists k: nat :: Matches(item, s, i, k)
    case AtStart => i == 0 && j == 0
    case AtEnd => i == |s| && j == |s|
  }

  ghost predicate MatchesAll(items: seq<Regex>, s: seq<int>, i: nat, j: nat)
    decreases items, 1
  {
    if items == [] then i == j
    else exists k: nat :: Matches(items[0], s, i, k) && MatchesAll(items[1..], s, k, j)
  }

  ghost predicate MatchesTimes(r: Regex, n: nat, s: seq<int>, i: nat, j: nat)
    decreases r, 1, n
  {
    if n == 0 then i == j
    else exists k: nat :: Matches(r, s, i, k) && MatchesTimes(r, n - 1, s, k, j)
  }

  /** Some match starts at `i`. */
  ghost predicate CanMatch(r: Regex, s: seq<int>, i: nat) {
    exists j: nat :: Matches(r, s, i, j)
  }

  /** `RegExp.prototype.test`: a match anywhere. */
  ghost predicate Test(r: Regex, s: seq<int>) {
    exists i: nat :: i <= |s| && CanMatch(r, s, i)
  }

  // ----- Notation.

  function Exactly(c: int): Regex { Class([Range(c, c)], false) }

  function Letters(w: seq<int>): (items: seq<Regex>)
    ensures |items| == |w| && forall i :: 0 <= i < |w| ==> items[i] == Exactly(w[i])
  {
    seq(|w|, i requires 0 <= i < |w| => Exactly(w[i]))
  }

  function Optionally(r: Regex): Regex { Repeat(r, 0, Some(1)) }

  /** `(?!a)(?!b)...` before `body`. */
  function Guarded(guards: seq<Regex>, body: seq<Regex>): seq<Regex> {
    seq(|guards|, k requires 0 <= k < |guards| => NotAhead(guards[k])) + body
  }

  const LINE_FEED := 0x0A
  const CARRIAGE_RETURN := 0x0D
  const LINE_SEPARATOR := 0x2028
  const PARAGRAPH_SEPARATOR := 0x2029

  /** What `.` refuses without the `s` flag. */
  predicate IsLineTerminator(c: int) {
    c == LINE_FEED || c == CARRIAGE_RETURN || c == LINE_SEPARATOR || c == PARAGRAPH_SEPARATOR
  }

  /** `.` */
  const DOT := Class([Range(LINE_FEED, LINE_FEED), Range(CARRIAGE_RETURN, CARRIAGE_RETURN),
                      Range(LINE_SEPARATOR, PARAGRAPH_SEPARATOR)], true)

  /** `.*` */
  const ANYTHING := Repeat(DOT, 0, None)

  // ----- What the pieces match.

  lemma InDot(c: int)
    ensures InClass(c, DOT.ranges, true) <==> !IsLineTerminator(c)
  {
    var ranges := DOT.ranges;
    assert ranges[0] == Range(0x0A, 0x0A) && ranges[1] == Range(0x0D, 0x0D) && ranges[2] == Range(0x2028, 0x2029);
  }

  lemma InExactly(c: int, d: int)
    ensures InClass(c, [Range(d, d)], false) <==> c == d
  {
    assert [Range(d, d)][0] == Range(d, d);
  }

  ghost predicate AllIn(s: seq<int>, i: nat, j: nat, ranges: seq<Range>, negated: bool) {
    i <= j <= |s| && forall k :: i <= k < j ==> InClass(s[k], ranges, negated)
  }

  lemma {:induction false} TimesClass(ranges: seq<Range>, negated: bool, n: nat, s: seq<int>, i: nat, j: nat)
    requires i <= |s|
    ensures MatchesTimes(Class(ranges, negated), n, s, i, j) <==> j == i + n && AllIn(s, i, j, ranges, negated)
    decreases n
  {
    var r := Class(ranges, negated);
    if n > 0 {
      if i < |s| {
        TimesClass(ranges, negated, n - 1, s, i + 1, j);
      }
      if i < |s| && MatchesTimes(r, n - 1, s, i + 1, j) && InClass(s[i], ranges, negated) {
        assert Matches(r, s, i, i + 1);
      }
    }
  }

  lemma RepeatClass(ranges: seq<Range>, negated: bool, least: nat, most: Option<nat>, s: seq<int>, i: nat, j: nat)
    requires i <= |s|
    ensures Matches(Repeat(Class(ranges, negated), least, most), s, i, j)
            <==> i + least <= j && (most.Some? ==> j - i <= most.value) && AllIn(s, i, j, ranges, negated)
  {
    forall n: nat {
      TimesClass(ranges, negated, n, s, i, j);
    }
    if i <= j {
      TimesClass(ranges, negated, j - i, s, i, j);
    }
  }

  /** The position is on the first line: nothing before it that `.` refuses. */
  ghost predicate Reached(s: seq<int>, k: nat) {
    k <= |s| && forall m :: 0 <= m < k ==> !IsLineTerminator(s[m])
  }

  lemma MatchesAnything(s: seq<int>, j: nat)
    ensures Matches(ANYTHING, s, 0, j) <==> Reached(s, j)
  {
    RepeatClass(DOT.ranges, true, 0, None, s, 0, j);
    forall c: int {
      InDot(c);
    }
  }

  lemma {:induction false} MatchesLetters(w: seq<int>, rest: seq<Regex>, s: seq<int>, i: nat, j: nat)
    requires i <= |s|
    ensures MatchesAll(Letters(w) + rest, s, i, j) <==> OccursAt(s, w, i) && MatchesAll(rest, s, i + |w|, j)
    decreases |w|
  {
    var items := Letters(w) + rest;
    if w == [] {
      assert items == rest;
    } else {
      assert items[0] == Exactly(w[0]) && items[1..] == Letters(w[1..]) + rest;
      MatchesAllFirst(items, s, i, j);
      if i < |s| {
        MatchesLetters(w[1..], rest, s, i + 1, j);
        InExactly(s[i], w[0]);
        OccursFirst(s, w, i);
      }
    }
  }

  lemma OccursFirst(s: seq<int>, w: seq<int>, i: nat)
    requires w != [] && i < |s|
    ensures OccursAt(s, w, i) <==> s[i] == w[0] && OccursAt(s, w[1..], i + 1)
  {
    if i + |w| <= |s| {
      assert s[i..i + |w|] == [s[i]] + s[i + 1..i + |w|];
      assert w == [w[0]] + w[1..];
    }
  }

  lemma MatchesOne(r: Regex, s: seq<int>, i: nat, j: nat)
    ensures MatchesAll([r], s, i, j) <==> Matches(r, s, i, j)
  {
    assert [r][1..] == [];
    if Matches(r, s, i, j) {
      assert MatchesAll([], s, j, j);
    }
  }

  lemma MatchesFirst(first: Regex, rest: seq<Regex>, s: seq<int>, i: nat, j: nat)
    ensures Matches(Sequence([first] + rest), s, i, j)
            <==> exists k: nat :: Matches(first, s, i, k) && MatchesAll(rest, s, k, j)
  {
    var items := [first] + rest;
    assert items[0] == first && items[1..] == rest;
    assert Matches(Sequence(items), s, i, j) <==> MatchesAll(items, s, i, j);
    MatchesAllFirst(items, s, i, j);
  }

  lemma {:induction false} MatchesAllFirst(items: seq<Regex>, s: seq<int>, i: nat, j: nat)
    requires items != []
    ensures MatchesAll(items, s, i, j)
            <==> exists k: nat :: Matches(items[0], s, i, k) && MatchesAll(items[1..], s, k, j)
  {
    if k: nat :| Matches(items[0], s, i, k) && MatchesAll(items[1..], s, k, j) {
      assert Matches(items[0], s, i, k) && MatchesAll(items[1..], s, k, j);
    } else {
      assert !MatchesAll(items, s, i, j);
    }
  }

  lemma MatchesOptionally(r: Regex, s: seq<int>, i: nat, j: nat)
    ensures Matches(Optionally(r), s, i, j) <==> i == j || Matches(r, s, i, j)
  {
    assert MatchesTimes(r, 0, s, i, j) <==> i == j;
    MatchesOnce(r, s, i, j);
  }

  lemma MatchesOnce(r: Regex, s: seq<int>, i: nat, j: nat)
    ensures MatchesTimes(r, 1, s, i, j) <==> Matches(r, s, i, j)
  {
    assert MatchesTimes(r, 0, s, j, j);
  }

  lemma {:induction false} TimesFirst(r: Regex, n: nat, s: seq<int>, i: nat, j: nat)
    requires n > 0
    ensures MatchesTimes(r, n, s, i, j)
            <==> exists k: nat :: Matches(r, s, i, k) && MatchesTimes(r, n - 1, s, k, j)
  {
    if k: nat :| Matches(r, s, i, k) && MatchesTimes(r, n - 1, s, k, j) {
      assert Matches(r, s, i, k) && MatchesTimes(r, n - 1, s, k, j);
    } else {
      assert !MatchesTimes(r, n, s, i, j);
    }
  }

  /** It matches where the body does and no look-ahead can. */
  lemma {:induction false} MatchesGuarded(guards: seq<Regex>, body: seq<Regex>, s: seq<int>, i: nat, j: nat)
    ensures MatchesAll(Guarded(guards, body), s, i, j)
            <==> (forall k :: 0 <= k < |guards| ==> !CanMatch(guards[k], s, i)) && MatchesAll(body, s, i, j)
    decreases |guards|
  {
    var items := Guarded(guards, body);
    if guards == [] {
      assert items == body;
    } else {
      var rest := guards[1..];
      assert items[1..] == Guarded(rest, body);
      MatchesGuarded(rest, body, s, i, j);
      assert items[0] == NotAhead(guards[0]);
      assert forall k :: 1 <= k < |guards| ==> guards[k] == rest[k - 1];
      assert Matches(items[0], s, i, i) <==> !CanMatch(guards[0], s, i);
    }
  }

  // ----- Look-aheads at the start of the input, as plain searches.

  /** Up to and including the first line terminator: all that `.*` can see of what follows. */
  function FirstLine(s: seq<int>): (line: seq<int>)
    ensures line <= s
    ensures forall m :: 0 <= m < |line| - 1 ==> !IsLineTerminator(s[m])
    ensures |line| < |s| ==> line != [] && IsLineTerminator(line[|line| - 1])
  {
    if s == [] then []
    else if IsLineTerminator(s[0]) then [s[0]]
    else [s[0]] + FirstLine(s[1..])
  }

  ghost predicate NoTerminator(w: seq<int>) {
    forall i :: 0 <= i < |w| ==> !IsLineTerminator(w[i])
  }

  lemma FirstLineIsAll(s: seq<int>)
    requires NoTerminator(s)
    ensures FirstLine(s) == s
  {
    var line := FirstLine(s);
    assert |line| == |s|;
  }

  /** An occurrence whose start is reached lies within the first line. */
  lemma ReachedOccurrence(s: seq<int>, w: seq<int>, k: nat)
    requires w != [] && NoTerminator(w)
    ensures Reached(s, k) && OccursAt(s, w, k) <==> OccursAt(FirstLine(s), w, k)
    ensures OccursAt(FirstLine(s), w, k) ==> Reached(s, k + |w|)
  {
    var line := FirstLine(s);
    if OccursAt(s, w, k) {
      forall m | k <= m < k + |w|
        ensures !IsLineTerminator(s[m])
      {
        assert s[m] == s[k..k + |w|][m - k];
      }
      if Reached(s, k) {
        assert k + |w| <= |line|;
        assert line[k..k + |w|] == s[k..k + |w|];
      }
    }
    if OccursAt(line, w, k) {
      assert s[k..k + |w|] == line[k..k + |w|];
    }
  }

  lemma AheadLetters(s: seq<int>, w: seq<int>)
    requires w != [] && NoTerminator(w)
    ensures CanMatch(Sequence(Letters(w)), s, 0) <==> StartsWith(FirstLine(s), w)
  {
    ReachedOccurrence(s, w, 0);
    assert Letters(w) + [] == Letters(w);
    forall j: nat
      ensures Matches(Sequence(Letters(w)), s, 0, j) <==> StartsWith(s, w) && j == |w|
    {
      MatchesLetters(w, [], s, 0, j);
    }
    assert Matches(Sequence(Letters(w)), s, 0, |w|) <==> StartsWith(s, w);
  }

  lemma AheadWhole(s: seq<int>, w: seq<int>)
    requires w != [] && NoTerminator(w)
    ensures CanMatch(Sequence(Letters(w) + [AtEnd]), s, 0) <==> FirstLine(s) == w
  {
    WholeFirstLine(s, w);
    forall j: nat
      ensures Matches(Sequence(Letters(w) + [AtEnd]), s, 0, j) <==> s == w && j == |s|
    {
      MatchesLetters(w, [AtEnd], s, 0, j);
      MatchesOne(AtEnd, s, |w|, j);
    }
    assert Matches(Sequence(Letters(w) + [AtEnd]), s, 0, |s|) <==> s == w;
  }

  ghost predicate Continues(rest: seq<Regex>, s: seq<int>, i: nat) {
    exists j: nat :: MatchesAll(rest, s, i, j)
  }

  /** `.*w` followed by `rest`. */
  lemma AheadAnywhere(s: seq<int>, w: seq<int>, rest: seq<Regex>)
    requires w != [] && NoTerminator(w)
    ensures CanMatch(Sequence([ANYTHING] + (Letters(w) + rest)), s, 0)
            <==> exists k: nat :: OccursAt(FirstLine(s), w, k) && Continues(rest, s, k + |w|)
  {
    var tail := Letters(w) + rest;
    var r := Sequence([ANYTHING] + tail);
    forall j: nat {
      MatchesFirst(ANYTHING, tail, s, 0, j);
    }
    if CanMatch(r, s, 0) {
      var j: nat :| Matches(r, s, 0, j);
      var k: nat :| Matches(ANYTHING, s, 0, k) && MatchesAll(tail, s, k, j);
      MatchesAnything(s, k);
      MatchesLetters(w, rest, s, k, j);
      ReachedOccurrence(s, w, k);
    }
    if k: nat :| OccursAt(FirstLine(s), w, k) && Continues(rest, s, k + |w|) {
      var j: nat :| MatchesAll(rest, s, k + |w|, j);
      MatchesAnything(s, k);
      ReachedOccurrence(s, w, k);
      MatchesLetters(w, rest, s, k, j);
      assert Matches(r, s, 0, j);
    }
  }

  lemma AheadIncludes(s: seq<int>, w: seq<int>)
    requires w != [] && NoTerminator(w)
    ensures CanMatch(Sequence([ANYTHING] + Letters(w)), s, 0) <==> Includes(FirstLine(s), w)
  {
    AheadAnywhere(s, w, []);
    assert Letters(w) + [] == Letters(w);
    forall k: nat
      ensures Continues([], s, k)
    {
      assert MatchesAll([], s, k, k);
    }
  }

  lemma AtEndContinues(s: seq<int>, i: nat)
    ensures Continues([AtEnd], s, i) <==> i == |s|
  {
    forall j: nat {
      MatchesOne(AtEnd, s, i, j);
    }
    if i == |s| {
      assert MatchesAll([AtEnd], s, i, i);
    }
  }

  lemma AheadEndsWith(s: seq<int>, w: seq<int>)
    requires w != [] && NoTerminator(w)
    ensures CanMatch(Sequence([ANYTHING] + (Letters(w) + [AtEnd])), s, 0) <==> EndsWith(FirstLine(s), w)
  {
    AheadAnywhere(s, w, [AtEnd]);
    EndOfFirstLine(s, w);
    if k: nat :| OccursAt(FirstLine(s), w, k) && Continues([AtEnd], s, k + |w|) {
      AtEndContinues(s, k + |w|);
      assert k == |FirstLine(s)| - |w|;
    }
    if EndsWith(FirstLine(s), w) {
      AtEndContinues(s, |s|);
      assert OccursAt(FirstLine(s), w, |s| - |w|) && Continues([AtEnd], s, |s| - |w| + |w|);
    }
  }

  /** Only a first line that is all of the input can end in `w`. */
  lemma EndOfFirstLine(s: seq<int>, w: seq<int>)
    requires w != [] && NoTerminator(w)
    ensures EndsWith(FirstLine(s), w) ==> FirstLine(s) == s
  {
    var line := FirstLine(s);
    if EndsWith(line, w) {
      assert line[|line| - 1] == line[|line| - |w|..|line|][|w| - 1] == w[|w| - 1];
      assert !IsLineTerminator(w[|w| - 1]);
      assert |line| == |s|;
      assert line == s[..|s|] == s;
    }
  }

  lemma WholeFirstLine(s: seq<int>, w: seq<int>)
    requires w != [] && NoTerminator(w)
    ensures FirstLine(s) == w <==> s == w
  {
    if s == w {
      FirstLineIsAll(s);
    } else if FirstLine(s) == w {
      assert EndsWith(w, w);
      EndOfFirstLine(s, w);
    }
  }

  /** `(/|$)`, or any letter in the slash's place. */
  lemma LetterOrEndContinues(s: seq<int>, c: int, i: nat)
    ensures Continues([Either(Exactly(c), AtEnd)], s, i) <==> OccursAt(s, [c], i) || i == |s|
  {
    var r := Either(Exactly(c), AtEnd);
    if i < |s| {
      InExactly(s[i], c);
      assert s[i..i + 1] == [s[i]];
    }
    forall j: nat
      ensures MatchesAll([r], s, i, j)
              <==> (j == i + 1 && OccursAt(s, [c], i)) || (j == i && i == |s|)
    {
      MatchesOne(r, s, i, j);
    }
    assert OccursAt(s, [c], i) ==> MatchesAll([r], s, i, i + 1);
    assert i == |s| ==> MatchesAll([r], s, i, i);
  }

  lemma OccursAtConcat(s: seq<int>, v: seq<int>, w: seq<int>, i: nat)
    ensures OccursAt(s, v + w, i) <==> OccursAt(s, v, i) && OccursAt(s, w, i + |v|)
  {
    if i + |v| + |w| <= |s| {
      assert s[i..i + |v + w|] == s[i..i + |v|] + s[i + |v|..i + |v| + |w|];
      assert (v + w)[..|v|] == v && (v + w)[|v|..] == w;
    }
  }

  lemma OptionalContinues(first: Regex, rest: seq<Regex>, s: seq<int>)
    ensures CanMatch(Sequence([Optionally(first)] + rest), s, 0)
            <==> Continues(rest, s, 0) || exists k: nat :: Matches(first, s, 0, k) && Continues(rest, s, k)
  {
    var r := Sequence([Optionally(first)] + rest);
    forall j: nat {
      MatchesFirst(Optionally(first), rest, s, 0, j);
    }
    if CanMatch(r, s, 0) {
      var j: nat :| Matches(r, s, 0, j);
      var k: nat :| Matches(Optionally(first), s, 0, k) && MatchesAll(rest, s, k, j);
      MatchesOptionally(first, s, 0, k);
    }
    if Continues(rest, s, 0) {
      var j: nat :| MatchesAll(rest, s, 0, j);
      MatchesOptionally(first, s, 0, 0);
      assert Matches(r, s, 0, j);
    } else if k: nat :| Matches(first, s, 0, k) && Continues(rest, s, k) {
      var j: nat :| MatchesAll(rest, s, k, j);
      MatchesOptionally(first, s, 0, k);
      assert Matches(r, s, 0, j);
    }
  }

  /** `(.*c)?` followed by `rest`, which is then at the start or just after a `c`. */
  lemma AheadComponent(s: seq<int>, c: int, rest: seq<Regex>)
    requires !IsLineTerminator(c)
    ensures CanMatch(Sequence([Optionally(Sequence([ANYTHING] + Letters([c])))] + rest), s, 0)
            <==> Continues(rest, s, 0)
                 || exists k: nat :: OccursAt(FirstLine(s), [c], k) && Continues(rest, s, k + 1)
  {
    var upTo := Sequence([ANYTHING] + Letters([c]));
    OptionalContinues(upTo, rest, s);
    if k: nat :| Matches(upTo, s, 0, k) && Continues(rest, s, k) {
      UpToMatches(s, c, k);
      assert k == (k - 1) + 1;
    }
    if k: nat :| OccursAt(FirstLine(s), [c], k) && Continues(rest, s, k + 1) {
      UpToMatches(s, c, k + 1);
    }
  }

  lemma AnythingThenLetter(s: seq<int>, c: int, k: nat, j: nat)
    requires !IsLineTerminator(c)
    ensures Matches(ANYTHING, s, 0, k) && MatchesAll(Letters([c]), s, k, j)
            <==> j == k + 1 && OccursAt(FirstLine(s), [c], k)
  {
    assert Letters([c]) + [] == Letters([c]);
    MatchesAnything(s, k);
    ReachedOccurrence(s, [c], k);
    if k <= |s| {
      MatchesLetters([c], [], s, k, j);
    }
  }

  /** `.*c`. */
  lemma UpToMatches(s: seq<int>, c: int, j: nat)
    requires !IsLineTerminator(c)
    ensures Matches(Sequence([ANYTHING] + Letters([c])), s, 0, j)
            <==> j >= 1 && OccursAt(FirstLine(s), [c], j - 1)
  {
    MatchesFirst(ANYTHING, Letters([c]), s, 0, j);
    forall k: nat {
      AnythingThenLetter(s, c, k, j);
    }
    if j >= 1 {
      AnythingThenLetter(s, c, j - 1, j);
    }
  }

  lemma LettersContinue(s: seq<int>, w: seq<int>, rest: seq<Regex>, i: nat)
    requires i <= |s|
    ensures Continues(Letters(w) + rest, s, i) <==> OccursAt(s, w, i) && Continues(rest, s, i + |w|)
  {
    if j: nat :| MatchesAll(Letters(w) + rest, s, i, j) {
      MatchesLetters(w, rest, s, i, j);
    }
    if OccursAt(s, w, i) && Continues(rest, s, i + |w|) {
      var j: nat :| MatchesAll(rest, s, i + |w|, j);
      MatchesLetters(w, rest, s, i, j);
    }
  }

  lemma NothingContinues(s: seq<int>, i: nat)
    ensures Continues([], s, i)
  {
    assert MatchesAll([], s, i, i);
  }

  /** A separator on the first line, then `w`: together on the first line. */
  lemma AfterSeparator(s: seq<int>, c: int, w: seq<int>, k: nat)
    requires w != [] && NoTerminator(w) && !IsLineTerminator(c)
    ensures OccursAt(FirstLine(s), [c], k) && OccursAt(s, w, k + 1) <==> OccursAt(FirstLine(s), [c] + w, k)
  {
    ReachedOccurrence(s, [c], k);
    ReachedOccurrence(s, [c] + w, k);
    OccursAtConcat(s, [c], w, k);
  }

  /** `(.*c)?w`: some component of the first line starts with `w`. */
  lemma AheadComponentPrefix(s: seq<int>, c: int, w: seq<int>)
    requires w != [] && NoTerminator(w) && !IsLineTerminator(c)
    ensures CanMatch(Sequence([Optionally(Sequence([ANYTHING] + Letters([c])))] + Letters(w)), s, 0)
            <==> StartsWith(FirstLine(s), w) || Includes(FirstLine(s), [c] + w)
  {
    assert Letters(w) + [] == Letters(w);
    AheadComponent(s, c, Letters(w));
    forall i: nat | i <= |s|
      ensures Continues(Letters(w), s, i) <==> OccursAt(s, w, i)
    {
      LettersContinue(s, w, [], i);
      NothingContinues(s, i + |w|);
    }
    ReachedOccurrence(s, w, 0);
    forall k: nat
      ensures OccursAt(FirstLine(s), [c], k) && OccursAt(s, w, k + 1) <==> OccursAt(FirstLine(s), [c] + w, k)
    {
      AfterSeparator(s, c, w, k);
    }
  }

  /** `w` and then a separator or the end of the input. */
  ghost predicate ClosedAt(s: seq<int>, w: seq<int>, c: int, k: nat) {
    OccursAt(s, w, k) && (k + |w| == |s| || OccursAt(s, [c], k + |w|))
  }

  lemma ClosedContinues(s: seq<int>, w: seq<int>, c: int, k: nat)
    requires k <= |s|
    ensures Continues(Letters(w) + [Either(Exactly(c), AtEnd)], s, k) <==> ClosedAt(s, w, c, k)
  {
    LettersContinue(s, w, [Either(Exactly(c), AtEnd)], k);
    LetterOrEndContinues(s, c, k + |w|);
  }

  lemma ClosedOnFirstLine(s: seq<int>, w: seq<int>, c: int, k: nat)
    requires w != [] && NoTerminator(w) && !IsLineTerminator(c)
    ensures Reached(s, k) && ClosedAt(s, w, c, k)
            <==> OccursAt(FirstLine(s), w + [c], k) || (k + |w| == |FirstLine(s)| && OccursAt(FirstLine(s), w, k))
  {
    ReachedOccurrence(s, w, k);
    ReachedOccurrence(s, w + [c], k);
    OccursAtConcat(s, w, [c], k);
    if k + |w| == |FirstLine(s)| && OccursAt(FirstLine(s), w, k) {
      EndOfFirstLine(s, w);
    }
  }

  lemma OccurrenceThenClosed(s: seq<int>, w: seq<int>, c: int, k: nat)
    requires w != [] && NoTerminator(w) && !IsLineTerminator(c)
    ensures OccursAt(FirstLine(s), w, k) && Continues([Either(Exactly(c), AtEnd)], s, k + |w|)
            <==> OccursAt(FirstLine(s), w + [c], k) || (k + |w| == |FirstLine(s)| && OccursAt(FirstLine(s), w, k))
  {
    LetterOrEndContinues(s, c, k + |w|);
    ReachedOccurrence(s, w, k);
    assert OccursAt(FirstLine(s), w, k) && Continues([Either(Exactly(c), AtEnd)], s, k + |w|)
           <==> Reached(s, k) && ClosedAt(s, w, c, k);
    ClosedOnFirstLine(s, w, c, k);
  }

  /** `.*w(c|$)`. */
  lemma AheadClosed(s: seq<int>, w: seq<int>, c: int)
    requires w != [] && NoTerminator(w) && !IsLineTerminator(c)
    ensures CanMatch(Sequence([ANYTHING] + (Letters(w) + [Either(Exactly(c), AtEnd)])), s, 0)
            <==> Includes(FirstLine(s), w + [c]) || EndsWith(FirstLine(s), w)
  {
    var line, tail := FirstLine(s), [Either(Exactly(c), AtEnd)];
    AheadAnywhere(s, w, tail);
    forall k: nat
      ensures OccursAt(line, w, k) && Continues(tail, s, k + |w|)
              <==> OccursAt(line, w + [c], k) || (k + |w| == |line| && OccursAt(line, w, k))
    {
      OccurrenceThenClosed(s, w, c, k);
    }
    if EndsWith(line, w) {
      assert OccursAt(line, w, |line| - |w|);
    }
  }

  lemma ClosedAfter(s: seq<int>, c: int, w: seq<int>, k: nat)
    ensures ClosedAt(s, [c] + w, c, k) <==> OccursAt(s, [c], k) && ClosedAt(s, w, c, k + 1)
  {
    OccursAtConcat(s, [c], w, k);
    assert k + |[c] + w| == k + 1 + |w|;
  }

  lemma SeparatorThenClosed(s: seq<int>, c: int, w: seq<int>, k: nat)
    requires w != [] && NoTerminator(w) && !IsLineTerminator(c)
    ensures OccursAt(FirstLine(s), [c], k) && ClosedAt(s, w, c, k + 1)
            <==> OccursAt(FirstLine(s), [c] + w + [c], k)
                 || (k + |[c] + w| == |FirstLine(s)| && OccursAt(FirstLine(s), [c] + w, k))
  {
    ReachedOccurrence(s, [c], k);
    ClosedAfter(s, c, w, k);
    ClosedOnFirstLine(s, [c] + w, c, k);
  }

  lemma ComponentThenClosed(s: seq<int>, c: int, w: seq<int>, k: nat)
    requires w != [] && NoTerminator(w) && !IsLineTerminator(c)
    ensures OccursAt(FirstLine(s), [c], k) && Continues(Letters(w) + [Either(Exactly(c), AtEnd)], s, k + 1)
            <==> OccursAt(FirstLine(s), [c] + w + [c], k)
                 || (k + |[c] + w| == |FirstLine(s)| && OccursAt(FirstLine(s), [c] + w, k))
  {
    SeparatorThenClosed(s, c, w, k);
    if OccursAt(FirstLine(s), [c], k) {
      ClosedContinues(s, w, c, k + 1);
    }
  }

  /** `(.*c)?w(c|$)`: some component of the first line is `w`. */
  lemma AheadWholeComponent(s: seq<int>, c: int, w: seq<int>)
    requires w != [] && NoTerminator(w) && !IsLineTerminator(c)
    ensures CanMatch(Sequence([Optionally(Sequence([ANYTHING] + Letters([c])))]
                              + (Letters(w) + [Either(Exactly(c), AtEnd)])), s, 0)
            <==> (var p := FirstLine(s);
                  p == w || StartsWith(p, w + [c]) || EndsWith(p, [c] + w) || Includes(p, [c] + w + [c]))
  {
    var p, rest := FirstLine(s), Letters(w) + [Either(Exactly(c), AtEnd)];
    AheadComponent(s, c, rest);
    ClosedContinues(s, w, c, 0);
    ClosedOnFirstLine(s, w, c, 0);
    assert p == w <==> |w| == |p| && OccursAt(p, w, 0);
    forall k: nat
      ensures OccursAt(p, [c], k) && Continues(rest, s, k + 1)
              <==> OccursAt(p, [c] + w + [c], k) || (k + |[c] + w| == |p| && OccursAt(p, [c] + w, k))
    {
      ComponentThenClosed(s, c, w, k);
    }
  }

  // ----- A whole validation pattern.

  /** `^(?!..)(?!..)[class]{least,most}$` */
  function Validation(guards: seq<Regex>, ranges: seq<Range>, negated: bool, least: nat, most: nat): Regex {
    Sequence([AtStart] + Guarded(guards, [Repeat(Class(ranges, negated), least, Some(most)), AtEnd]))
  }

  lemma BodyMatches(ranges: seq<Range>, negated: bool, least: nat, most: nat, s: seq<int>, j: nat)
    ensures MatchesAll([Repeat(Class(ranges, negated), least, Some(most)), AtEnd], s, 0, j)
            <==> j == |s| && least <= |s| <= most && AllIn(s, 0, |s|, ranges, negated)
  {
    var body := Repeat(Class(ranges, negated), least, Some(most));
    assert [body, AtEnd] == [body] + [AtEnd];
    MatchesFirst(body, [AtEnd], s, 0, j);
    forall k: nat
      ensures Matches(body, s, 0, k) && MatchesAll([AtEnd], s, k, j)
              <==> k == j == |s| && least <= |s| <= most && AllIn(s, 0, |s|, ranges, negated)
    {
      MatchesOne(AtEnd, s, k, j);
      RepeatClass(ranges, negated, least, Some(most), s, 0, k);
    }
    if j == |s| && least <= |s| <= most && AllIn(s, 0, |s|, ranges, negated) {
      assert Matches(body, s, 0, j) && MatchesAll([AtEnd], s, j, j);
    }
  }

  lemma TestValidation(guards: seq<Regex>, ranges: seq<Range>, negated: bool, least: nat, most: nat, s: seq<int>)
    ensures Test(Validation(guards, ranges, negated, least, most), s)
            <==> (forall k :: 0 <= k < |guards| ==> !CanMatch(guards[k], s, 0))
                 && least <= |s| <= most && AllIn(s, 0, |s|, ranges, negated)
  {
    var r := Validation(guards, ranges, negated, least, most);
    var body := [Repeat(Class(ranges, negated), least, Some(most)), AtEnd];
    forall i: nat, j: nat
      ensures Matches(r, s, i, j)
              <==> i == 0 && j == |s| && (forall k :: 0 <= k < |guards| ==> !CanMatch(guards[k], s, 0))
                   && least <= |s| <= most && AllIn(s, 0, |s|, ranges, negated)
    {
      MatchesFirst(AtStart, Guarded(guards, body), s, i, j);
      MatchesGuarded(guards, body, s, 0, j);
      BodyMatches(ranges, negated, least, most, s, j);
      assert Matches(AtStart, s, i, 0) <==> i == 0;
    }
    assert Matches(r, s, 0, |s|) ==> CanMatch(r, s, 0);
  }
}
