/** The string operations the scraper and the dashboard use, on ASCII text:
    `str.lower`, the `in` operator on strings, `str.endswith`, `str.strip`,
    `str.replace(old, "")` and `str.split(sep)`. */
module Text {

  predicate IsUpper(c: char) { 'A' <= c <= 'Z' }

  function LowerChar(c: char): char
  {
    if IsUpper(c) then (c as int + 32) as char else c
  }

  predicate NoUpper(s: string) { forall i :: 0 <= i < |s| ==> !IsUpper(s[i]) }

  /** `s.lower()` for ASCII: exactly the upper-case letters change, each to
      the letter 32 code points above it. */
  function Lower(s: string): (r: string)
    ensures |r| == |s| && NoUpper(r)
    ensures forall i :: 0 <= i < |s| ==> (r[i] == s[i] <==> !IsUpper(s[i]))
    ensures forall i :: 0 <= i < |s| && IsUpper(s[i]) ==> r[i] as int == s[i] as int + 32
  {
    seq(|s|, i requires 0 <= i < |s| => LowerChar(s[i]))
  }

  /** Lower-casing works character by character, so it distributes over
      concatenation. */
  lemma LowerAppend(a: string, b: string)
    ensures Lower(a + b) == Lower(a) + Lower(b)
  {
    forall i | 0 <= i < |a + b|
      ensures Lower(a + b)[i] == (Lower(a) + Lower(b))[i]
    {
      if i < |a| {
        assert (a + b)[i] == a[i];
      } else {
        assert (a + b)[i] == b[i - |a|];
      }
    }
  }

  lemma LowerIdempotent(s: string)
    ensures Lower(Lower(s)) == Lower(s)
  {
  }

  /** `t` occurs in `s` starting at index `i`. */
  ghost predicate OccursAt(s: string, t: string, i: int)
  {
    0 <= i && i + |t| <= |s| && s[i..i + |t|] == t
  }

  lemma OccursShift(s: string, t: string)
    requires |s| > 0
    ensures forall i :: 0 <= i ==> (OccursAt(s[1..], t, i) <==> OccursAt(s, t, i + 1))
  {
    forall i | 0 <= i
      ensures OccursAt(s[1..], t, i) <==> OccursAt(s, t, i + 1)
    {
      if 0 <= i && i + |t| <= |s| - 1 {
        assert s[1..][i..i + |t|] == s[i + 1..i + 1 + |t|];
      }
    }
  }

  /** Python's `t in s`: substring containment (the empty string occurs
      everywhere). */
  function Contains(s: string, t: string): (b: bool)
    ensures b <==> exists i :: OccursAt(s, t, i)
    decreases |s|
  {
    if |t| > |s| then false
    else if s[..|t|] == t then assert OccursAt(s, t, 0); true
    else
      OccursShift(s, t);
      assert forall i :: OccursAt(s, t, i) ==> i > 0;
      assert forall i :: OccursAt(s, t, i) ==> OccursAt(s[1..], t, i - 1);
      Contains(s[1..], t)
  }

  /** A string that lacks a character of `t` cannot contain `t`. */
  lemma MissingCharNotContained(s: string, t: string, c: char)
    requires c in t && c !in s
    ensures !Contains(s, t)
  {
    var k :| 0 <= k < |t| && t[k] == c;
    forall i
      ensures !OccursAt(s, t, i)
    {
      if 0 <= i && i + |t| <= |s| {
        assert s[i..i + |t|][k] == s[i + k];
      }
    }
  }

  /** A string in which the first two characters of `t` never appear side
      by side cannot contain `t`. */
  lemma MissingPairNotContained(s: string, t: string)
    requires |t| >= 2 && forall k :: 0 <= k < |s| - 1 ==> !(s[k] == t[0] && s[k + 1] == t[1])
    ensures !Contains(s, t)
  {
    forall i
      ensures !OccursAt(s, t, i)
    {
      if 0 <= i && i + |t| <= |s| {
        assert s[i..i + |t|][0] == s[i] && s[i..i + |t|][1] == s[i + 1];
      }
    }
  }

  /** A lower-case letter appears in `Lower(s)` only where it or its
      upper-case form appears in `s`. */
  lemma AbsentFromLower(s: string, c: char)
    requires 'a' <= c <= 'z' && c !in s && (c as int - 32) as char !in s
    ensures c !in Lower(s)
  {
    forall i | 0 <= i < |s|
      ensures Lower(s)[i] != c
    {
      assert s[i] != c && s[i] != (c as int - 32) as char;
    }
  }

  /** Python's `s.endswith(t)`. */
  predicate EndsWith(s: string, t: string)
    ensures EndsWith(s, t) <==> |t| <= |s| && forall k :: 0 <= k < |t| ==> s[|s| - |t| + k] == t[k]
  {
    |t| <= |s| && s[|s| - |t|..] == t
  }

  /** Every string ends with what was appended to it, and with nothing longer
      than itself. */
  lemma EndsWithAppended(u: string, t: string)
    ensures EndsWith(u + t, t)
    ensures |t| > |u| ==> !EndsWith(u, t)
  {
    assert (u + t)[|u|..] == t;
  }

  /** The characters `str.strip()` removes, restricted to ASCII: tab, line
      feed, vertical tab, form feed, carriage return, the four separators
      0x1C-0x1F and space. */
  predicate IsSpace(c: char)
  {
    var n := c as int; n == 32 || 9 <= n <= 13 || 28 <= n <= 31
  }

  predicate AllSpace(s: string) { forall i :: 0 <= i < |s| ==> IsSpace(s[i]) }

  /** Neither end of `s` is whitespace. */
  predicate Trimmed(s: string) { s == [] || (!IsSpace(s[0]) && !IsSpace(s[|s| - 1])) }

  /** The length of the whitespace run at the start of `s`. */
  function LeadingSpaces(s: string): (n: nat)
    ensures n <= |s| && AllSpace(s[..n]) && (n < |s| ==> !IsSpace(s[n]))
    decreases |s|
  {
    if |s| > 0 && IsSpace(s[0]) then
      var n := 1 + LeadingSpaces(s[1..]);
      assert s[..n] == [s[0]] + s[1..][..n - 1];
      n
    else 0
  }

  /** The length of the whitespace run at the end of `s`. */
  function TrailingSpaces(s: string): (n: nat)
    ensures n <= |s| && AllSpace(s[|s| - n..]) && (n < |s| ==> !IsSpace(s[|s| - 1 - n]))
    decreases |s|
  {
    if |s| > 0 && IsSpace(s[|s| - 1]) then
      var front := s[..|s| - 1];
      var m := TrailingSpaces(front);
      assert s[|s| - (1 + m)..] == front[|front| - m..] + [s[|s| - 1]];
      assert m < |front| ==> s[|s| - 2 - m] == front[|front| - 1 - m];
      1 + m
    else 0
  }

  /** `s.strip()`: the slice of `s` left after removing the whitespace at
      both ends. */
  function Strip(s: string): (r: string)
    ensures Trimmed(r) && |r| <= |s|
    ensures exists i, j :: 0 <= i <= j <= |s| && r == s[i..j] && AllSpace(s[..i]) && AllSpace(s[j..])
  {
    var i := LeadingSpaces(s);
    var t := s[i..];
    var n := TrailingSpaces(t);
    var j := |s| - n;
    assert t[..|t| - n] == s[i..j];
    assert t[|t| - n..] == s[j..];
    if i == |s| then assert s[i..i] == []; [] else
    assert !IsSpace(t[0]);
    s[i..j]
  }

  /** Stripping a trimmed string padded with whitespace recovers it. */
  lemma {:induction false} LeadingSpacesAfter(w: string, u: string)
    requires AllSpace(w)
    ensures LeadingSpaces(w + u) == |w| + LeadingSpaces(u)
    decreases |w|
  {
    if |w| == 0 {
      assert w + u == u;
    } else {
      assert (w + u)[1..] == w[1..] + u;
      LeadingSpacesAfter(w[1..], u);
    }
  }

  lemma {:induction false} TrailingSpacesBefore(u: string, w: string)
    requires AllSpace(w)
    ensures TrailingSpaces(u + w) == |w| + TrailingSpaces(u)
    decreases |w|
  {
    if |w| == 0 {
      assert u + w == u;
    } else {
      assert (u + w)[..|u + w| - 1] == u + w[..|w| - 1];
      TrailingSpacesBefore(u, w[..|w| - 1]);
    }
  }

  /** Stripping a trimmed string padded with whitespace recovers it. */
  lemma StripPadded(w1: string, s: string, w2: string)
    requires AllSpace(w1) && AllSpace(w2) && Trimmed(s)
    ensures Strip(w1 + s + w2) == s
  {
    var x := w1 + s + w2;
    assert x == w1 + (s + w2);
    LeadingSpacesAfter(w1, s + w2);
    if |s| == 0 {
      assert s + w2 == w2 + [];
      LeadingSpacesAfter(w2, []);
    } else {
      assert (s + w2)[0] == s[0];
      TrailingSpacesBefore(s, w2);
      assert x[|w1|..] == s + w2;
      assert x[|w1|..|x| - |w2|] == s;
    }
  }

  lemma StripTrimmed(s: string)
    requires Trimmed(s)
    ensures Strip(s) == s
  {
    StripPadded([], s, []);
    assert [] + s + [] == s;
  }

  /** Stripping only removes characters. */
  lemma StripKeepsAbsent(s: string, c: char)
    requires c !in s
    ensures c !in Strip(s)
  {
    var r := Strip(s);
    var i, j :| 0 <= i <= j <= |s| && r == s[i..j] && AllSpace(s[..i]) && AllSpace(s[j..]);
    forall m | 0 <= m < |r|
      ensures r[m] != c
    {
      assert r[m] == s[i + m];
    }
  }

  lemma StripIdempotent(s: string)
    ensures Strip(Strip(s)) == Strip(s)
  {
    StripTrimmed(Strip(s));
  }

  /** Lower-casing moves no whitespace, so it keeps a string trimmed. */
  lemma LowerKeepsTrimmed(s: string)
    requires Trimmed(s)
    ensures Trimmed(Lower(s))
  {
  }

  /** `s.replace(pat, "")`: every occurrence of `pat` found in a
      left-to-right scan is removed; the text left between two removals is
      not rescanned against what came before it. */
  function RemoveAll(s: string, pat: string): (r: string)
    ensures |r| <= |s|
    decreases |s|
  {
    if |pat| == 0 || |s| < |pat| then s
    else if s[..|pat|] == pat then RemoveAll(s[|pat|..], pat)
    else [s[0]] + RemoveAll(s[1..], pat)
  }

  /** Removing a pattern that does not occur changes nothing. */
  lemma {:induction false} RemoveAllAbsent(s: string, pat: string)
    requires !Contains(s, pat)
    ensures RemoveAll(s, pat) == s
    decreases |s|
  {
    if |pat| > 0 && |s| >= |pat| {
      assert !OccursAt(s, pat, 0);
      OccursShift(s, pat);
      RemoveAllAbsent(s[1..], pat);
      assert s == [s[0]] + s[1..];
    }
  }

  /** A pattern at the end of the text, not occurring anywhere earlier, is
      removed and nothing else is. */
  lemma {:induction false} RemoveAllSuffix(u: string, pat: string)
    requires |pat| > 0
    requires forall i :: 0 <= i < |u| ==> !OccursAt(u + pat, pat, i)
    ensures RemoveAll(u + pat, pat) == u
    decreases |u|
  {
    var s := u + pat;
    if |u| == 0 {
      assert s == pat && s[..|pat|] == pat;
      assert s[|pat|..] == [];
    } else {
      assert !OccursAt(s, pat, 0);
      assert s[..|pat|] != pat;
      assert s[1..] == u[1..] + pat;
      forall i | 0 <= i < |u[1..]|
        ensures !OccursAt(u[1..] + pat, pat, i)
      {
        assert !OccursAt(s, pat, i + 1);
        assert (u[1..] + pat)[i..i + |pat|] == s[i + 1..i + 1 + |pat|];
      }
      RemoveAllSuffix(u[1..], pat);
      assert u == [u[0]] + u[1..];
    }
  }

  /** No proper suffix of `pat` is also a prefix of it, so two occurrences
      of `pat` can never overlap. */
  ghost predicate BorderFree(pat: string)
  {
    forall j :: 0 < j < |pat| ==> pat[j..] != pat[..|pat| - j]
  }

  /** A border-free pattern appended to a text that does not contain it
      occurs nowhere before the appended copy: an earlier occurrence would
      either lie inside the text or overlap the copy. */
  lemma BorderFreeSuffix(v: string, pat: string)
    requires BorderFree(pat) && !Contains(v, pat)
    ensures forall i :: 0 <= i < |v| ==> !OccursAt(v + pat, pat, i)
  {
    var s := v + pat;
    forall i | 0 <= i < |v|
      ensures !OccursAt(s, pat, i)
    {
      if i + |pat| <= |v| {
        assert s[i..i + |pat|] == v[i..i + |pat|];
        assert !OccursAt(v, pat, i);
      } else {
        var j := |v| - i;
        assert pat[j..] != pat[..|pat| - j];
        assert s[i..i + |pat|][j..] == pat[..|pat| - j];
      }
    }
  }

  /** Removing an absent pattern, then a non-overlapping suffix the text
      lacks, leaves the text. */
  lemma RemoveAbsentThenSuffix(u: string, first: string, pat: string)
    requires |pat| > 0 && BorderFree(pat) && !Contains(u, pat) && !Contains(u + pat, first)
    ensures RemoveAll(RemoveAll(u + pat, first), pat) == u
  {
    RemoveAllAbsent(u + pat, first);
    BorderFreeSuffix(u, pat);
    RemoveAllSuffix(u, pat);
  }

  /** Removing a non-overlapping suffix the text lacks, then a pattern the
      text lacks, leaves the text. */
  lemma RemoveSuffixThenAbsent(u: string, pat: string, second: string)
    requires |pat| > 0 && BorderFree(pat) && !Contains(u, pat) && !Contains(u, second)
    ensures RemoveAll(RemoveAll(u + pat, pat), second) == u
  {
    BorderFreeSuffix(u, pat);
    RemoveAllSuffix(u, pat);
    RemoveAllAbsent(u, second);
  }

  /** In particular when the text before the suffix lacks the pattern's
      first character. */
  lemma RemoveAllSuffixFirstChar(u: string, pat: string)
    requires |pat| > 0 && pat[0] !in u
    ensures RemoveAll(u + pat, pat) == u
  {
    forall i | 0 <= i < |u|
      ensures !OccursAt(u + pat, pat, i)
    {
      assert (u + pat)[i] == u[i];
    }
    RemoveAllSuffix(u, pat);
  }

  /** A pattern that starts with an upper-case letter never occurs in a
      lower-cased string, so removing it is the identity. */
  lemma RemoveUpperFromLower(s: string, pat: string)
    requires NoUpper(s) && |pat| > 0 && IsUpper(pat[0])
    ensures RemoveAll(s, pat) == s
  {
    MissingCharNotContained(s, pat, pat[0]);
    RemoveAllAbsent(s, pat);
  }

  /** `s.split(sep)`: the pieces between separators, empty pieces included;
      there is always at least one piece. */
  function Split(s: string, sep: char): (r: seq<string>)
    ensures |r| >= 1
    ensures forall k :: 0 <= k < |r| ==> sep !in r[k]
    decreases |s|
  {
    if |s| == 0 then [""]
    else
      var rest := Split(s[1..], sep);
      if s[0] == sep then [""] + rest
      else [[s[0]] + rest[0]] + rest[1..]
  }

  /** `sep.join(parts)`. */
  function Join(parts: seq<string>, sep: char): string
    decreases |parts|
  {
    if |parts| == 0 then ""
    else if |parts| == 1 then parts[0]
    else parts[0] + [sep] + Join(parts[1..], sep)
  }

  lemma JoinThree(a: string, b: string, c: string, sep: char)
    ensures Join([a, b, c], sep) == a + [sep] + (b + [sep] + c)
  {
    assert [a, b, c][1..] == [b, c];
    assert [b, c][1..] == [c];
    assert Join([c], sep) == c;
    assert Join([b, c], sep) == b + [sep] + c;
  }

  /** Joining the pieces with the separator gives back the text. */
  lemma {:induction false} JoinSplit(s: string, sep: char)
    ensures Join(Split(s, sep), sep) == s
    decreases |s|
  {
    if |s| > 0 {
      JoinSplit(s[1..], sep);
      var rest := Split(s[1..], sep);
      var r := Split(s, sep);
      if s[0] == sep {
        assert r[1..] == rest;
        assert s == [sep] + s[1..];
      } else {
        assert r[1..] == rest[1..];
        if |rest| == 1 {
          assert s == [s[0]] + s[1..];
        } else {
          assert rest[0] + [sep] + Join(rest[1..], sep) == s[1..];
          assert s == [s[0]] + s[1..];
        }
      }
    }
  }

  /** Splitting a join of separator-free pieces gives back the pieces. */
  lemma {:induction false} SplitJoin(parts: seq<string>, sep: char)
    requires |parts| >= 1
    requires forall k :: 0 <= k < |parts| ==> sep !in parts[k]
    ensures Split(Join(parts, sep), sep) == parts
    decreases |parts|
  {
    if |parts| == 1 {
      SplitNoSep(parts[0], sep);
    } else {
      SplitJoin(parts[1..], sep);
      SplitAfterPiece(parts[0], sep, Join(parts[1..], sep));
    }
  }

  lemma {:induction false} SplitNoSep(s: string, sep: char)
    requires sep !in s
    ensures Split(s, sep) == [s]
    decreases |s|
  {
    if |s| > 0 {
      SplitNoSep(s[1..], sep);
      assert s == [s[0]] + s[1..];
    }
  }

  lemma {:induction false} SplitAfterPiece(p: string, sep: char, rest: string)
    requires sep !in p
    ensures Split(p + [sep] + rest, sep) == [p] + Split(rest, sep)
    decreases |p|
  {
    var x := p + [sep] + rest;
    if |p| == 0 {
      assert x[0] == sep && x[1..] == rest;
    } else {
      assert x[0] == p[0] && x[1..] == p[1..] + [sep] + rest;
      SplitAfterPiece(p[1..], sep, rest);
      assert p == [p[0]] + p[1..];
    }
  }
}
