/**
 How searching for plain characters behaves under splitting into components and under reading UTF-16
 units as code points.
 */
module TextSearch {
  import opened JsStrings

  lemma OccursAtCons(s: seq<int>, w: seq<int>, i: int)
    requires s != [] && i >= 1
    ensures OccursAt(s, w, i) <==> OccursAt(s[1..], w, i - 1)
  {
    if i + |w| <= |s| {
      var here, there := s[i..i + |w|], s[1..][i - 1..i - 1 + |w|];
      assert forall m :: 0 <= m < |w| ==> here[m] == s[i + m] == there[m];
      assert here == there;
    }
  }

  lemma IncludesCons(s: seq<int>, w: seq<int>)
    ensures Includes(s, w) <==> StartsWith(s, w) || (s != [] && Includes(s[1..], w))
  {
    if s != [] {
      forall i | 1 <= i <= |s|
        ensures OccursAt(s, w, i) <==> OccursAt(s[1..], w, i - 1)
      {
        OccursAtCons(s, w, i);
      }
      if Includes(s[1..], w) {
        var k :| 0 <= k <= |s[1..]| && OccursAt(s[1..], w, k);
        assert OccursAt(s, w, k + 1);
      }
    }
  }

  lemma EndsWithCons(s: seq<int>, w: seq<int>)
    ensures EndsWith(s, w) <==> s == w || (s != [] && EndsWith(s[1..], w))
  {
    if s == w {
      assert s[|s| - |w|..|s| - |w| + |w|] == w;
    } else if s != [] && |w| < |s| {
      OccursAtCons(s, w, |s| - |w|);
    }
  }

  lemma StartsWithCons(s: seq<int>, w: seq<int>)
    requires w != []
    ensures StartsWith(s, w) <==> s != [] && s[0] == w[0] && StartsWith(s[1..], w[1..])
  {
    if |w| <= |s| {
      assert s[0..|w|] == [s[0]] + s[1..][0..|w| - 1];
      assert w == [w[0]] + w[1..];
    }
  }

  // ----- Components of a path-like name.

  predicate SomeStartsWith(components: seq<seq<int>>, w: seq<int>) {
    exists k :: 0 <= k < |components| && StartsWith(components[k], w)
  }

  predicate SomeEndsWith(components: seq<seq<int>>, w: seq<int>) {
    exists k :: 0 <= k < |components| && EndsWith(components[k], w)
  }

  lemma {:induction false} FirstStartsWith(s: seq<int>, separator: int, w: seq<int>)
    requires separator !in w
    ensures StartsWith(Split(s, separator)[0], w) <==> StartsWith(s, w)
    decreases |s|
  {
    if w != [] {
      StartsWithCons(s, w);
      StartsWithCons(Split(s, separator)[0], w);
      if s != [] && s[0] != separator {
        FirstStartsWith(s[1..], separator, w[1..]);
        assert Split(s, separator)[0][1..] == Split(s[1..], separator)[0];
      }
    }
  }

  /** The first component is `w` when `w` is followed by a separator or by nothing. */
  lemma {:induction false} FirstIs(s: seq<int>, separator: int, w: seq<int>)
    requires separator !in w
    ensures Split(s, separator)[0] == w <==> s == w || StartsWith(s, w + [separator])
    decreases |s|
  {
    StartsWithCons(s, w + [separator]);
    if s != [] && s[0] != separator && w != [] {
      assert (w + [separator])[1..] == w[1..] + [separator];
      FirstIs(s[1..], separator, w[1..]);
      assert Split(s, separator)[0][1..] == Split(s[1..], separator)[0];
      assert w == [w[0]] + w[1..] && s == [s[0]] + s[1..];
    } else if s != [] && s[0] == separator && w == [] {
      assert (w + [separator])[1..] == [];
    }
  }

  lemma {:induction false} LaterStartsWith(s: seq<int>, separator: int, w: seq<int>)
    requires separator !in w
    ensures SomeStartsWith(Split(s, separator)[1..], w) <==> Includes(s, [separator] + w)
    decreases |s|
  {
    IncludesCons(s, [separator] + w);
    StartsWithCons(s, [separator] + w);
    assert ([separator] + w)[1..] == w;
    if s != [] {
      var rest := Split(s[1..], separator);
      LaterStartsWith(s[1..], separator, w);
      if s[0] == separator {
        FirstStartsWith(s[1..], separator, w);
        assert Split(s, separator)[1..] == rest == [rest[0]] + rest[1..];
      } else {
        assert Split(s, separator)[1..] == rest[1..];
      }
    }
  }

  lemma SomeComponentStartsWith(s: seq<int>, separator: int, w: seq<int>)
    requires separator !in w
    ensures SomeStartsWith(Split(s, separator), w) <==> StartsWith(s, w) || Includes(s, [separator] + w)
  {
    LaterStartsWith(s, separator, w);
    FirstStartsWith(s, separator, w);
    var parts := Split(s, separator);
    assert parts == [parts[0]] + parts[1..];
  }

  lemma SomeEndsWithCons(c: seq<int>, components: seq<seq<int>>, w: seq<int>)
    ensures SomeEndsWith([c] + components, w) <==> EndsWith(c, w) || SomeEndsWith(components, w)
  {
    var all := [c] + components;
    assert all[0] == c && forall k :: 0 <= k < |components| ==> all[k + 1] == components[k];
    if SomeEndsWith(components, w) {
      var k :| 0 <= k < |components| && EndsWith(components[k], w);
      assert EndsWith(all[k + 1], w);
    }
  }

  lemma {:induction false} SomeComponentEndsWith(s: seq<int>, separator: int, w: seq<int>)
    requires separator !in w && w != []
    ensures SomeEndsWith(Split(s, separator), w) <==> EndsWith(s, w) || Includes(s, w + [separator])
    decreases |s|
  {
    EndsWithCons(s, w);
    IncludesCons(s, w + [separator]);
    if s != [] {
      var parts, rest := Split(s, separator), Split(s[1..], separator);
      SomeComponentEndsWith(s[1..], separator, w);
      assert rest == [rest[0]] + rest[1..];
      SomeEndsWithCons(rest[0], rest[1..], w);
      if s[0] == separator {
        StartsWithCons(s, w + [separator]);
        SomeEndsWithCons([], rest, w);
        assert parts == [[]] + rest;
      } else {
        FirstIs(s, separator, w);
        StartsWithCons(s, w + [separator]);
        EndsWithCons(parts[0], w);
        SomeEndsWithCons(parts[0], rest[1..], w);
        assert parts[0][1..] == rest[0];
      }
    }
  }

  lemma {:induction false} LaterIs(s: seq<int>, separator: int, w: seq<int>)
    requires separator !in w
    ensures w in Split(s, separator)[1..]
            <==> EndsWith(s, [separator] + w) || Includes(s, [separator] + w + [separator])
    decreases |s|
  {
    var bare, closed := [separator] + w, [separator] + w + [separator];
    EndsWithCons(s, bare);
    IncludesCons(s, closed);
    StartsWithCons(s, closed);
    assert closed[1..] == w + [separator];
    if s != [] {
      var rest := Split(s[1..], separator);
      LaterIs(s[1..], separator, w);
      if s[0] == separator {
        FirstIs(s[1..], separator, w);
        assert Split(s, separator)[1..] == rest == [rest[0]] + rest[1..];
        assert s == [separator] + s[1..];
      } else {
        assert Split(s, separator)[1..] == rest[1..];
      }
    }
  }

  lemma SomeComponentIs(s: seq<int>, separator: int, w: seq<int>)
    requires separator !in w
    ensures w in Split(s, separator)
            <==> s == w || StartsWith(s, w + [separator]) || EndsWith(s, [separator] + w)
                 || Includes(s, [separator] + w + [separator])
  {
    LaterIs(s, separator, w);
    FirstIs(s, separator, w);
    var parts := Split(s, separator);
    assert parts == [parts[0]] + parts[1..];
  }

  /** Whatever a component includes, the whole does. */
  lemma {:induction false} ComponentIncludes(s: seq<int>, separator: int, k: nat, w: seq<int>)
    requires k < |Split(s, separator)| && Includes(Split(s, separator)[k], w) && w != []
    ensures Includes(s, w)
    decreases |s|
  {
    if s != [] {
      var rest := Split(s[1..], separator);
      IncludesCons(s, w);
      if s[0] == separator {
        if k > 0 {
          ComponentIncludes(s[1..], separator, k - 1, w);
        }
      } else if k > 0 {
        ComponentIncludes(s[1..], separator, k, w);
      } else {
        var first := Split(s, separator)[0];
        IncludesCons(first, w);
        assert first[1..] == rest[0];
        if StartsWith(first, w) {
          FirstIsPrefix(s, separator);
          assert s[..|w|] == first[..|w|];
        } else {
          ComponentIncludes(s[1..], separator, 0, w);
        }
      }
    }
  }

  lemma {:induction false} FirstIsPrefix(s: seq<int>, separator: int)
    ensures Split(s, separator)[0] <= s
    decreases |s|
  {
    if s != [] && s[0] != separator {
      FirstIsPrefix(s[1..], separator);
    }
  }

  // ----- Units and code points agree about plain characters.

  predicate AllPlain(w: seq<int>) {
    forall i :: 0 <= i < |w| ==> IsPlain(w[i])
  }

  lemma {:induction false} EncodeStartsWith(p: Text, w: seq<int>)
    requires AllPlain(w)
    ensures StartsWith(Encode(p), w) <==> StartsWith(p, w)
    decreases |p|
  {
    if w != [] {
      StartsWithCons(p, w);
      StartsWithCons(Encode(p), w);
      if p != [] {
        assert Encode(p) == UnitsOf(p[0]) + Encode(p[1..]);
        if IsPlain(p[0]) {
          assert Encode(p)[1..] == Encode(p[1..]);
          EncodeStartsWith(p[1..], w[1..]);
        }
      }
    }
  }

  lemma {:induction false} EncodeIncludes(p: Text, w: seq<int>)
    requires AllPlain(w) && w != []
    ensures Includes(Encode(p), w) <==> Includes(p, w)
    decreases |p|
  {
    var s := Encode(p);
    EncodeStartsWith(p, w);
    IncludesCons(p, w);
    IncludesCons(s, w);
    if p != [] {
      EncodeIncludes(p[1..], w);
      var head := UnitsOf(p[0]);
      if |head| == 1 {
        assert s[1..] == Encode(p[1..]);
      } else {
        IncludesCons(s[1..], w);
        StartsWithCons(s[1..], w);
        assert s[1..][1..] == Encode(p[1..]);
      }
    }
  }

  lemma {:induction false} EncodeIs(p: Text, w: seq<int>)
    requires AllPlain(w)
    ensures Encode(p) == w <==> p == w
    decreases |p|
  {
    if p != [] {
      if w != [] && IsPlain(p[0]) {
        EncodeIs(p[1..], w[1..]);
        assert w == [w[0]] + w[1..] && p == [p[0]] + p[1..];
        assert Encode(p)[1..] == Encode(p[1..]);
      }
    }
  }

  lemma {:induction false} EncodeEndsWith(p: Text, w: seq<int>)
    requires AllPlain(w) && w != []
    ensures EndsWith(Encode(p), w) <==> EndsWith(p, w)
    decreases |p|
  {
    var s := Encode(p);
    EncodeIs(p, w);
    EndsWithCons(p, w);
    EndsWithCons(s, w);
    if p != [] {
      EncodeEndsWith(p[1..], w);
      var head := UnitsOf(p[0]);
      if |head| == 1 {
        assert s[1..] == Encode(p[1..]);
      } else {
        EndsWithCons(s[1..], w);
        assert s[1..][1..] == Encode(p[1..]);
        assert s[0] == head[0] && s[1..][0] == head[1];
        assert s != w && s[1..] != w;
      }
    }
  }

  /** All three searches for a plain word answer the same on a string and on its code points. */
  lemma CodePointsAgree(s: JsString, w: seq<int>)
    requires AllPlain(w) && w != []
    ensures StartsWith(s, w) <==> StartsWith(CodePoints(s), w)
    ensures Includes(s, w) <==> Includes(CodePoints(s), w)
    ensures EndsWith(s, w) <==> EndsWith(CodePoints(s), w)
  {
    EncodeCodePoints(s);
    EncodeStartsWith(CodePoints(s), w);
    EncodeIncludes(CodePoints(s), w);
    EncodeEndsWith(CodePoints(s), w);
  }
}
