/** Literal substring replacement with the semantics of Java's
    `String.replace(CharSequence, CharSequence)`: the string is scanned left to
    right, every occurrence of the target found by that scan is replaced, and
    matches never overlap. Text here is a sequence of whole characters, where
    Java works on UTF-16 code units; on text both can represent, the two
    agree whenever the target is not empty. */
module Text {

  /** `pat` occurs in `s` starting at index `i`. */
  predicate OccursAt(s: string, pat: string, i: int)
  {
    0 <= i && i + |pat| <= |s| && s[i..i + |pat|] == pat
  }

  /** `pat` occurs somewhere in `s`. */
  predicate Occurs(s: string, pat: string)
  {
    exists i :: 0 <= i <= |s| - |pat| && OccursAt(s, pat, i)
  }

  /** The text `p` ends at the first occurrence of `pat` in `p + pat`: no
      occurrence starts inside `p`. This is exactly what a left-to-right scan
      sees before the match that follows `p`. */
  predicate EndsAtFirstMatch(p: string, pat: string)
  {
    forall i :: 0 <= i < |p| ==> !OccursAt(p + pat, pat, i)
  }

  /** The pieces `parts` glued together with `sep` between neighbours. */
  function Join(parts: seq<string>, sep: string): string
  {
    if |parts| == 0 then []
    else if |parts| == 1 then parts[0]
    else parts[0] + sep + Join(parts[1..], sep)
  }

  /** `s` with every occurrence of `pat` replaced by `rep`, scanning left to
      right. An empty target matches before every character and at the end,
      as in Java for text without surrogate pairs ("abc" with "" replaced by
      "-" is "-a-b-c-"). */
  function ReplaceAll(s: string, pat: string, rep: string): string
    decreases |s|
  {
    if |pat| == 0 then
      if |s| == 0 then rep else rep + [s[0]] + ReplaceAll(s[1..], pat, rep)
    else if |s| == 0 then
      []
    else if pat <= s then
      rep + ReplaceAll(s[|pat|..], pat, rep)
    else
      [s[0]] + ReplaceAll(s[1..], pat, rep)
  }

  /** Text holding no occurrence of the target comes out verbatim. */
  lemma {:induction false} ReplaceAllVerbatim(s: string, pat: string, rep: string)
    requires !Occurs(s, pat)
    ensures ReplaceAll(s, pat, rep) == s
    decreases |s|
  {
    assert |pat| > 0 by {
      if |pat| == 0 {
        assert OccursAt(s, pat, 0);
      }
    }
    if |s| > 0 {
      assert !(pat <= s) by {
        if pat <= s {
          assert OccursAt(s, pat, 0);
        }
      }
      NoOccurrenceInTail(s, pat);
      ReplaceAllVerbatim(s[1..], pat, rep);
      assert [s[0]] + s[1..] == s;
    }
  }

  /** Dropping the first character cannot create an occurrence. */
  lemma NoOccurrenceInTail(s: string, pat: string)
    requires |s| > 0
    requires !Occurs(s, pat)
    ensures !Occurs(s[1..], pat)
  {
    forall i | OccursAt(s[1..], pat, i)
      ensures OccursAt(s, pat, i + 1)
    {
      assert s[1..][i..i + |pat|] == s[i + 1..i + 1 + |pat|];
    }
  }

  /** Replacing a target by itself gives back the original text. */
  lemma {:induction false} ReplaceWithSelf(s: string, pat: string)
    ensures ReplaceAll(s, pat, pat) == s
    decreases |s|
  {
    if |pat| == 0 {
      if |s| > 0 {
        ReplaceWithSelf(s[1..], pat);
        assert [s[0]] + s[1..] == s;
      }
    } else if |s| > 0 {
      if pat <= s {
        ReplaceWithSelf(s[|pat|..], pat);
        assert s[..|pat|] + s[|pat|..] == s;
      } else {
        ReplaceWithSelf(s[1..], pat);
        assert [s[0]] + s[1..] == s;
      }
    }
  }

  /** A scan that reaches a match right after `p` copies `p`, emits `rep`,
      and continues after the match. */
  lemma {:induction false} ReplaceSkipsToMatch(p: string, pat: string, t: string, rep: string)
    requires |pat| > 0
    requires EndsAtFirstMatch(p, pat)
    ensures ReplaceAll(p + pat + t, pat, rep) == p + rep + ReplaceAll(t, pat, rep)
    decreases |p|
  {
    if |p| == 0 {
      assert p + pat + t == pat + t;
      ReplaceAllAtMatch(t, pat, rep);
    } else {
      var p' := p[1..];
      var rest := p' + pat + t;
      var tail := ReplaceAll(t, pat, rep);
      assert p + pat + t == [p[0]] + rest;
      assert ReplaceAll(p + pat + t, pat, rep) == [p[0]] + ReplaceAll(rest, pat, rep) by {
        NoMatchAtStart(p, pat, t);
        ReplaceAllPastNonMatch(p[0], rest, pat, rep);
      }
      assert ReplaceAll(rest, pat, rep) == p' + rep + tail by {
        MatchEndsAfterTail(p, pat);
        ReplaceSkipsToMatch(p', pat, t, rep);
      }
      assert [p[0]] + (p' + rep + tail) == p + rep + tail;
    }
  }

  /** A non-empty `p` that ends at the first match does not start with one. */
  lemma NoMatchAtStart(p: string, pat: string, t: string)
    requires |p| > 0
    requires EndsAtFirstMatch(p, pat)
    ensures !(pat <= p + pat + t)
  {
    if pat <= p + pat + t {
      assert (p + pat)[0..|pat|] == (p + pat + t)[0..|pat|];
      assert OccursAt(p + pat, pat, 0);
    }
  }

  /** Dropping the first character of `p` keeps it ending at the first match. */
  lemma MatchEndsAfterTail(p: string, pat: string)
    requires |p| > 0
    requires EndsAtFirstMatch(p, pat)
    ensures EndsAtFirstMatch(p[1..], pat)
  {
    var p' := p[1..];
    forall i | 0 <= i < |p'|
      ensures !OccursAt(p' + pat, pat, i)
    {
      assert (p' + pat)[i..i + |pat|] == (p + pat)[i + 1..i + 1 + |pat|];
      assert !OccursAt(p + pat, pat, i + 1);
    }
  }

  /** Characterisation of ReplaceAll by the pieces between matches: when `s`
      is cut into pieces separated by the matches a left-to-right scan finds
      (each piece but the last ends at the next match, the last holds no
      match), the result is the same pieces separated by `rep`. */
  lemma {:induction false} ReplaceAllByPieces(parts: seq<string>, pat: string, rep: string)
    requires |parts| >= 1
    requires |pat| > 0
    requires forall j :: 0 <= j < |parts| - 1 ==> EndsAtFirstMatch(parts[j], pat)
    requires !Occurs(parts[|parts| - 1], pat)
    ensures ReplaceAll(Join(parts, pat), pat, rep) == Join(parts, rep)
    decreases |parts|
  {
    if |parts| > 1 {
      assert EndsAtFirstMatch(parts[0], pat);
      ReplaceAllByPieces(parts[1..], pat, rep);
      ReplaceSkipsToMatch(parts[0], pat, Join(parts[1..], pat), rep);
    } else {
      ReplaceAllVerbatim(parts[0], pat, rep);
    }
  }

  /** Text free of the target's first character is copied unchanged, and
      the scan resumes right after it. */
  lemma {:induction false} ReplaceAllCopiesFreeText(a: string, b: string, pat: string, rep: string)
    requires |pat| > 0
    requires pat[0] !in a
    ensures ReplaceAll(a + b, pat, rep) == a + ReplaceAll(b, pat, rep)
    decreases |a|
  {
    if |a| > 0 {
      var s := a + b;
      assert s[0] == a[0] != pat[0];
      assert !(pat <= s);
      assert s[1..] == a[1..] + b;
      ReplaceAllCopiesFreeText(a[1..], b, pat, rep);
      assert [s[0]] + (a[1..] + ReplaceAll(b, pat, rep)) == a + ReplaceAll(b, pat, rep);
    } else {
      assert a + b == b;
    }
  }

  /** A match at the front of the text is replaced and the scan resumes
      after it. */
  lemma ReplaceAllAtMatch(b: string, pat: string, rep: string)
    requires |pat| > 0
    ensures ReplaceAll(pat + b, pat, rep) == rep + ReplaceAll(b, pat, rep)
  {
    assert pat <= pat + b;
    assert (pat + b)[|pat|..] == b;
  }

  /** A front character that does not start a match is copied and the scan
      moves one character on. */
  lemma ReplaceAllPastNonMatch(c: char, b: string, pat: string, rep: string)
    requires |pat| > 0
    requires !(pat <= [c] + b)
    ensures ReplaceAll([c] + b, pat, rep) == [c] + ReplaceAll(b, pat, rep)
  {
    assert ([c] + b)[1..] == b;
  }

  /** A character that starts no match, followed by text free of the
      target's first character, is copied unchanged. */
  lemma ReplaceAllCopiesNearMiss(c: char, tail: string, pat: string, rep: string)
    requires |pat| >= 2 && |tail| >= 1
    requires pat[1] != tail[0] && pat[0] !in tail
    ensures ReplaceAll([c] + tail, pat, rep) == [c] + tail
  {
    assert ReplaceAll([c] + tail, pat, rep) == [c] + ReplaceAll(tail, pat, rep) by {
      assert ([c] + tail)[1] == tail[0];
      ReplaceAllPastNonMatch(c, tail, pat, rep);
    }
    assert ReplaceAll(tail, pat, rep) == tail by {
      ReplaceAllCopiesFreeText(tail, [], pat, rep);
      assert tail + [] == tail;
    }
  }
}
