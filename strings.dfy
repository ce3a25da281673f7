/**
 The three string primitives the keyword search relies on: `toLowerCase`,
 `trim` and `includes`, modelled over `seq<char>`.
 */
module Strings {

  /** True for the characters JavaScript's `trim` strips: the WhiteSpace
      and LineTerminator code points, all of which lie in the Basic
      Multilingual Plane. */
  predicate IsSpace(c: char)
  {
    || c == '\t' || c == '\n' || c == '\U{B}' || c == '\U{C}' || c == '\r'
    || c == ' ' || c == '\U{A0}' || c == '\U{1680}'
    || ('\U{2000}' <= c <= '\U{200A}')
    || c == '\U{2028}' || c == '\U{2029}' || c == '\U{202F}' || c == '\U{205F}'
    || c == '\U{3000}' || c == '\U{FEFF}'
  }

  predicate AllSpace(s: string)
  {
    forall i :: 0 <= i < |s| ==> IsSpace(s[i])
  }

  predicate IsUpper(c: char)
  {
    'A' <= c <= 'Z'
  }

  /** Lower-cases one ASCII letter; every other character is left alone. */
  function LowerChar(c: char): (d: char)
    ensures !IsUpper(d)
    ensures IsUpper(c) ==> d as int == c as int + 32
    ensures !IsUpper(c) ==> d == c
  {
    if IsUpper(c) then (c as int - 'A' as int + 'a' as int) as char else c
  }

  predicate NoUpper(s: string)
  {
    forall i :: 0 <= i < |s| ==> !IsUpper(s[i])
  }

  /** `s.toLowerCase()` on the ASCII range. */
  function ToLower(s: string): (r: string)
    ensures |r| == |s| && NoUpper(r)
    ensures forall i :: 0 <= i < |s| && !IsUpper(s[i]) ==> r[i] == s[i]
    ensures forall i :: 0 <= i < |s| && IsUpper(s[i]) ==> r[i] as int == s[i] as int + 32
  {
    seq(|s|, i requires 0 <= i < |s| => LowerChar(s[i]))
  }

  lemma {:induction false} ToLowerIdempotent(s: string)
    ensures ToLower(ToLower(s)) == ToLower(s)
  {
  }

  /** Lower-casing works character by character, so it distributes over
      concatenation and leaves white space where it was. */
  lemma {:induction false} ToLowerAppend(a: string, b: string)
    ensures ToLower(a + b) == ToLower(a) + ToLower(b)
  {
  }

  lemma {:induction false} ToLowerKeepsSpace(s: string)
    requires AllSpace(s)
    ensures ToLower(s) == s
  {
  }

  /** Strings that agree up to the case of their ASCII letters lower-case
      to the same string. */
  lemma {:induction false} ToLowerIgnoresCase(a: string, b: string)
    requires |a| == |b|
    requires forall i :: 0 <= i < |a| ==> LowerChar(a[i]) == LowerChar(b[i])
    ensures ToLower(a) == ToLower(b)
  {
  }

  /** The number of white-space characters `s` starts with. */
  function LeadingSpaces(s: string): (n: nat)
    ensures n <= |s|
    ensures n < |s| ==> !IsSpace(s[n])
    decreases |s|
  {
    if |s| > 0 && IsSpace(s[0]) then 1 + LeadingSpaces(s[1..]) else 0
  }

  /** The number of white-space characters `s` ends with. */
  function TrailingSpaces(s: string): (n: nat)
    ensures n <= |s|
    ensures n < |s| ==> !IsSpace(s[|s| - 1 - n])
    decreases |s|
  {
    if |s| > 0 && IsSpace(s[|s| - 1]) then 1 + TrailingSpaces(s[..|s| - 1]) else 0
  }

  /** `r` is the part of `s` starting at position `a`, and only white
      space surrounds it in `s`. */
  predicate SpaceAround(s: string, r: string, a: int)
  {
    0 <= a <= |s| - |r| && r == s[a..a + |r|] && AllSpace(s[..a]) && AllSpace(s[a + |r|..])
  }

  /** `s.trim()`: `s` without its leading and trailing white space. The
      result is a piece of `s` with only white space around it and no
      white space at either of its own ends, which determines it. */
  function Trim(s: string): (r: string)
    ensures |r| <= |s|
    ensures exists a :: SpaceAround(s, r, a)
    ensures r != [] ==> !IsSpace(r[0]) && !IsSpace(r[|r| - 1])
    ensures forall c :: c in r ==> c in s
  {
    var a := LeadingSpaces(s);
    var u := s[a..];
    var r := TrimTail(u);
    assert SpaceAround(s, r, a) by {
      LeadingSpacesPrefix(s);
      TrailingSpacesSuffix(u);
      assert s[a + |r|..] == u[|u| - TrailingSpaces(u)..];
    }
    r
  }

  /** The white space `LeadingSpaces` counts is white space. */
  lemma {:induction false} LeadingSpacesPrefix(s: string)
    ensures AllSpace(s[..LeadingSpaces(s)])
    decreases |s|
  {
    if |s| > 0 && IsSpace(s[0]) {
      LeadingSpacesPrefix(s[1..]);
      assert s[..LeadingSpaces(s)] == [s[0]] + s[1..][..LeadingSpaces(s[1..])];
    }
  }

  /** The white space `TrailingSpaces` counts is white space. */
  lemma {:induction false} TrailingSpacesSuffix(s: string)
    ensures AllSpace(s[|s| - TrailingSpaces(s)..])
    decreases |s|
  {
    if |s| > 0 && IsSpace(s[|s| - 1]) {
      var front := s[..|s| - 1];
      var k := |front| - TrailingSpaces(front);
      assert AllSpace(front[k..]) by {
        TrailingSpacesSuffix(front);
      }
      var tail := s[k..];
      assert |s| - TrailingSpaces(s) == k;
      forall i | 0 <= i < |tail| ensures IsSpace(tail[i]) {
        if i < |tail| - 1 {
          assert tail[i] == front[k..][i];
        }
      }
    }
  }

  /** `s` without its trailing white space. */
  function TrimTail(s: string): (r: string)
    ensures |r| <= |s| && r == s[..|r|]
  {
    s[..|s| - TrailingSpaces(s)]
  }

  /** Only a blank string is white space all through. */
  lemma {:induction false} LeadingSpacesBlankIff(s: string)
    ensures LeadingSpaces(s) == |s| <==> AllSpace(s)
    decreases |s|
  {
    if s != [] {
      LeadingSpacesBlankIff(s[1..]);
      assert forall i :: 1 <= i < |s| ==> s[i] == s[1..][i - 1];
    }
  }

  /** Only a blank string is white space all through, counted from the
      end. */
  lemma {:induction false} TrailingSpacesBlankIff(s: string)
    ensures TrailingSpaces(s) == |s| <==> AllSpace(s)
    decreases |s|
  {
    if s != [] {
      var front := s[..|s| - 1];
      TrailingSpacesBlankIff(front);
      assert forall i :: 0 <= i < |s| - 1 ==> s[i] == front[i];
    }
  }

  /** Leading white space added in front is counted on top. */
  lemma {:induction false} LeadingSpacesPadded(ws: string, s: string)
    requires AllSpace(ws)
    ensures LeadingSpaces(ws + s) == |ws| + LeadingSpaces(s)
    decreases |ws|
  {
    if ws != [] {
      assert (ws + s)[1..] == ws[1..] + s;
      LeadingSpacesPadded(ws[1..], s);
    } else {
      assert ws + s == s;
    }
  }

  /** Once a non-space character has been met, what follows does not
      matter. */
  lemma {:induction false} LeadingSpacesAppend(s: string, t: string)
    requires LeadingSpaces(s) < |s|
    ensures LeadingSpaces(s + t) == LeadingSpaces(s)
    decreases |s|
  {
    if IsSpace(s[0]) {
      assert (s + t)[1..] == s[1..] + t;
      LeadingSpacesAppend(s[1..], t);
    }
  }

  /** Trailing white space added at the end is counted on top. */
  lemma {:induction false} TrailingSpacesPadded(s: string, ws: string)
    requires AllSpace(ws) && TrailingSpaces(s) < |s|
    ensures TrailingSpaces(s + ws) == TrailingSpaces(s) + |ws|
    decreases |ws|
  {
    if ws != [] {
      var n := |ws| - 1;
      assert (s + ws)[..|s + ws| - 1] == s + ws[..n];
      TrailingSpacesPadded(s, ws[..n]);
    } else {
      assert s + ws == s;
    }
  }

  /** Trailing white space added to a string that is not blank is removed
      again by `TrimTail`. */
  lemma {:induction false} TrimTailPadded(u: string, ws: string)
    requires AllSpace(ws) && TrailingSpaces(u) < |u|
    ensures TrimTail(u + ws) == TrimTail(u)
  {
    var k := |u| - TrailingSpaces(u);
    assert |u + ws| - TrailingSpaces(u + ws) == k by {
      TrailingSpacesPadded(u, ws);
    }
    assert (u + ws)[..k] == u[..k];
  }

  /** Around a string that is not blank, the leading white space ends
      where that string's own does. */
  lemma {:induction false} LeadingSpacesAround(ws1: string, s: string, ws2: string)
    requires AllSpace(ws1) && LeadingSpaces(s) < |s|
    ensures LeadingSpaces(ws1 + s + ws2) == |ws1| + LeadingSpaces(s)
  {
    assert ws1 + s + ws2 == ws1 + (s + ws2);
    LeadingSpacesPadded(ws1, s + ws2);
    LeadingSpacesAppend(s, ws2);
  }

  /** White space padded with white space is white space. */
  lemma {:induction false} AllSpaceConcat(ws1: string, s: string, ws2: string)
    requires AllSpace(ws1) && AllSpace(s) && AllSpace(ws2)
    ensures AllSpace(ws1 + s + ws2)
  {
    var x := ws1 + s + ws2;
    forall i | 0 <= i < |x| ensures IsSpace(x[i]) {
      if i < |ws1| {
        assert x[i] == ws1[i];
      } else if i < |ws1| + |s| {
        assert x[i] == s[i - |ws1|];
      } else {
        assert x[i] == ws2[i - |ws1| - |s|];
      }
    }
  }

  /** A blank string trims to the empty string. */
  lemma {:induction false} TrimBlank(s: string)
    requires AllSpace(s)
    ensures Trim(s) == []
  {
    LeadingSpacesBlankIff(s);
    assert s[|s|..] == [];
  }

  /** White space added on either side of a string is removed again by
      `Trim`. */
  lemma {:induction false} TrimPadded(ws1: string, s: string, ws2: string)
    requires AllSpace(ws1) && AllSpace(ws2)
    ensures Trim(ws1 + s + ws2) == Trim(s)
  {
    var x := ws1 + s + ws2;
    if AllSpace(s) {
      AllSpaceConcat(ws1, s, ws2);
      TrimBlank(x);
      TrimBlank(s);
    } else {
      var a := LeadingSpaces(s);
      assert a < |s| by {
        LeadingSpacesBlankIff(s);
      }
      var u := s[a..];
      assert x[LeadingSpaces(x)..] == u + ws2 by {
        LeadingSpacesAround(ws1, s, ws2);
      }
      assert TrailingSpaces(u) < |u| by {
        assert !IsSpace(u[0]);
        TrailingSpacesBlankIff(u);
      }
      TrimTailPadded(u, ws2);
    }
  }

  /** A string with no white space at either end is its own trim. */
  lemma {:induction false} TrimUnpadded(s: string)
    requires s != [] ==> !IsSpace(s[0]) && !IsSpace(s[|s| - 1])
    ensures Trim(s) == s
  {
  }

  /** The value of `Trim` is pinned down by its contract: any piece of
      `s` surrounded by white space only and with no white space at its
      own ends is `Trim(s)`. */
  lemma {:induction false} TrimUnique(s: string, t: string, b: int)
    requires SpaceAround(s, t, b)
    requires t != [] ==> !IsSpace(t[0]) && !IsSpace(t[|t| - 1])
    ensures t == Trim(s)
  {
    var ws1, ws2 := s[..b], s[b + |t|..];
    assert s == ws1 + t + ws2;
    if t == [] {
      AllSpaceConcat(ws1, t, ws2);
      TrimBlank(s);
    } else {
      TrimPadded(ws1, t, ws2);
      TrimUnpadded(t);
    }
  }

  /** `haystack.includes(needle)`: `needle` is a prefix of some suffix of
      `haystack`. */
  predicate Contains(haystack: string, needle: string): (b: bool)
    ensures needle == [] ==> b
    ensures b ==> |needle| <= |haystack|
    decreases |haystack|
  {
    needle <= haystack || (haystack != [] && Contains(haystack[1..], needle))
  }

  /** `needle` occurs in `haystack` starting at position `i`. */
  predicate OccursAt(haystack: string, needle: string, i: int)
  {
    0 <= i <= |haystack| - |needle| && haystack[i..i + |needle|] == needle
  }

  /** Where `Contains` holds, the needle occurs at some position. */
  lemma {:induction false} ContainsOccurs(haystack: string, needle: string) returns (i: int)
    requires Contains(haystack, needle)
    ensures OccursAt(haystack, needle, i)
    decreases |haystack|
  {
    if needle <= haystack {
      i := 0;
      assert haystack[0..|needle|] == needle;
    } else {
      var tail := haystack[1..];
      var k := ContainsOccurs(tail, needle);
      i := k + 1;
      assert haystack[i..i + |needle|] == tail[k..k + |needle|];
    }
  }

  /** Where the needle occurs at some position, `Contains` holds. */
  lemma {:induction false} OccursContains(haystack: string, needle: string, i: int)
    requires OccursAt(haystack, needle, i)
    ensures Contains(haystack, needle)
    decreases i
  {
    if i == 0 {
      assert needle <= haystack;
    } else {
      var tail := haystack[1..];
      assert tail[i - 1..i - 1 + |needle|] == haystack[i..i + |needle|];
      OccursContains(tail, needle, i - 1);
    }
  }

  /** `Contains` agrees with the plain definition of "occurs at some
      position". */
  lemma {:induction false} ContainsAt(haystack: string, needle: string)
    ensures Contains(haystack, needle) <==> exists i :: OccursAt(haystack, needle, i)
  {
    if Contains(haystack, needle) {
      var i := ContainsOccurs(haystack, needle);
    }
    if exists i :: OccursAt(haystack, needle, i) {
      var i :| OccursAt(haystack, needle, i);
      OccursContains(haystack, needle, i);
    }
  }
}
