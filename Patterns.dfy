/**
 * The keyword counters of the advanced explanation: the number of matches
 * of a global regular expression `<keyword>\s+\w+`, as `match(...).length`
 * reports it (no match gives 0).
 *
 * A global match scans left to right; at each position it tries the pattern
 * and, on success, resumes right after the match. `\s+` and `\w+` are
 * greedy and `\s` and `\w` share no character, so a match at a position is
 * the keyword, the whole run of white space after it (at least one
 * character), and the whole run of word characters after that (at least one).
 */
module Patterns {
  import opened JsText

  /** Length of the longest prefix of white space. */
  function SpaceRun(s: string): (n: nat)
    ensures n <= |s|
    ensures forall i :: 0 <= i < n ==> IsJsSpace(s[i])
    ensures n < |s| ==> !IsJsSpace(s[n])
    decreases |s|
  {
    if |s| > 0 && IsJsSpace(s[0]) then 1 + SpaceRun(s[1..]) else 0
  }

  /** Length of the longest prefix of word characters. */
  function WordRun(s: string): (n: nat)
    ensures n <= |s|
    ensures forall i :: 0 <= i < n ==> IsWordChar(s[i])
    ensures n < |s| ==> !IsWordChar(s[n])
    decreases |s|
  {
    if |s| > 0 && IsWordChar(s[0]) then 1 + WordRun(s[1..]) else 0
  }

  /**
   * The regular expression `kw\s+\w+` matches the first `m` characters of
   * `s`, with the white space ending at `k`.
   */
  predicate ShapeAt(kw: string, s: string, k: int, m: int)
  {
    |kw| < k < m <= |s| && s[..|kw|] == kw &&
    (forall i :: |kw| <= i < k ==> IsJsSpace(s[i])) &&
    (forall i :: k <= i < m ==> IsWordChar(s[i]))
  }

  /** Some way of matching `kw\s+\w+` covers exactly the first `m` characters. */
  ghost predicate MatchesPrefix(kw: string, s: string, m: int)
  {
    exists k :: ShapeAt(kw, s, k, m)
  }

  /** Length of the greedy match of `kw\s+\w+` at the start of `s`; 0 when there is none. */
  function MatchLen(kw: string, s: string): (m: nat)
    ensures m == 0 || |kw| + 2 <= m <= |s|
  {
    if |kw| <= |s| && s[..|kw|] == kw then
      var t := s[|kw|..];
      var sp := SpaceRun(t);
      if 1 <= sp < |t| && IsWordChar(t[sp]) then |kw| + sp + WordRun(t[sp..]) else 0
    else 0
  }

  /**
   * `MatchLen` is the regular expression's own verdict: a positive result is
   * a match and no match is longer; 0 means there is no match at all.
   */
  lemma MatchLenIsGreedyMatch(kw: string, s: string)
    ensures MatchLen(kw, s) > 0 ==> MatchesPrefix(kw, s, MatchLen(kw, s))
    ensures forall m :: MatchesPrefix(kw, s, m) ==> 0 < m <= MatchLen(kw, s)
  {
    MatchLenMatches(kw, s);
    forall m' | MatchesPrefix(kw, s, m')
      ensures 0 < m' <= MatchLen(kw, s)
    {
      var k :| ShapeAt(kw, s, k, m');
      NoLongerMatch(kw, s, k, m');
    }
  }

  /** A positive `MatchLen` is a match. */
  lemma MatchLenMatches(kw: string, s: string)
    ensures MatchLen(kw, s) > 0 ==> MatchesPrefix(kw, s, MatchLen(kw, s))
  {
    var m := MatchLen(kw, s);
    if m > 0 {
      var t := s[|kw|..];
      var sp := SpaceRun(t);
      var wr := WordRun(t[sp..]);
      assert ShapeAt(kw, s, |kw| + sp, m) by {
        forall i | |kw| <= i < |kw| + sp
          ensures IsJsSpace(s[i])
        {
          assert s[i] == t[i - |kw|];
        }
        forall i | |kw| + sp <= i < m
          ensures IsWordChar(s[i])
        {
          assert s[i] == t[sp..][i - |kw| - sp];
        }
      }
    }
  }

  /** Any way of matching is at most as long as the greedy one. */
  lemma NoLongerMatch(kw: string, s: string, k: int, m': int)
    requires ShapeAt(kw, s, k, m')
    ensures 0 < m' <= MatchLen(kw, s)
  {
    var t := s[|kw|..];
    var sp := SpaceRun(t);
    // The white space of any match is the whole run after the keyword.
    assert k - |kw| == sp by {
      WordAndSpaceDisjoint(s[k]);
      assert s[k] == t[k - |kw|];
    }
    assert IsWordChar(t[sp]) by {
      assert s[k] == t[sp];
    }
    var wr := WordRun(t[sp..]);
    assert m' - k <= wr by {
      forall i | 0 <= i < m' - k
        ensures IsWordChar(t[sp..][i])
      {
        assert t[sp..][i] == s[k + i];
      }
    }
  }

  /** One more match of at least `k` characters keeps the count within the text. */
  lemma BoundStep(k: nat, rest: nat, m: nat, len: nat)
    requires k <= m <= len && k * rest <= len - m
    ensures k * (1 + rest) <= len
  {
    assert k * (1 + rest) == k + k * rest;
  }

  /** `(s.match(/kw\s+\w+/g) || []).length`. */
  function Count(kw: string, s: string): (n: nat)
    ensures (|kw| + 2) * n <= |s|
    decreases |s|
  {
    if |s| == 0 then 0
    else
      var m := MatchLen(kw, s);
      if m > 0 then
        var rest := Count(kw, s[m..]);
        BoundStep(|kw| + 2, rest, m, |s|);
        1 + rest
      else Count(kw, s[1..])
  }

  /** Without the keyword in the text there is nothing to count. */
  lemma {:induction false} CountWithoutKeyword(kw: string, s: string)
    requires !Contains(s, kw)
    ensures Count(kw, s) == 0
    decreases |s|
  {
    if |s| > 0 {
      if |kw| <= |s| {
        assert s[..|kw|] != kw;
        CountWithoutKeyword(kw, s[1..]);
      }
    }
  }

  /** Text none of whose characters can start the keyword is skipped over. */
  lemma {:induction false} CountSkips(kw: string, u: string, r: string)
    requires |kw| >= 1
    requires forall i :: 0 <= i < |u| ==> u[i] != kw[0]
    ensures Count(kw, u + r) == Count(kw, r)
    decreases |u|
  {
    if |u| > 0 {
      assert (u + r)[0] == u[0];
      assert MatchLen(kw, u + r) == 0;
      assert (u + r)[1..] == u[1..] + r;
      CountSkips(kw, u[1..], r);
    } else {
      assert u + r == r;
    }
  }

  /** A match at the start is counted and the scan resumes right after it. */
  lemma CountTakesMatch(kw: string, w: string, r: string)
    requires MatchLen(kw, w + r) == |w|
    requires |w| > 0
    ensures Count(kw, w + r) == 1 + Count(kw, r)
  {
    assert (w + r)[|w|..] == r;
  }

  /** `kw`, one blank and a whole word match greedily up to the end of the word. */
  lemma KeywordThenWord(kw: string, w: string, r: string)
    requires |w| >= 1 && forall i :: 0 <= i < |w| ==> IsWordChar(w[i])
    requires |r| == 0 || !IsWordChar(r[0])
    ensures MatchLen(kw, kw + " " + w + r) == |kw| + 1 + |w|
  {
    var s := kw + " " + w + r;
    var t := s[|kw|..];
    assert t == " " + (w + r);
    WordAndSpaceDisjoint(w[0]);
    assert SpaceRun(t) == 1 by {
      assert t[1..] == w + r;
      assert !IsJsSpace((w + r)[0]);
    }
    assert t[1..] == w + r;
    assert forall i :: 0 <= i < |w| ==> (w + r)[i] == w[i];
    assert |r| > 0 ==> (w + r)[|w|] == r[0];
    assert WordRun(w + r) == |w|;
  }

  /**
   * Two definitions, each a keyword, a blank and a name, followed by text that
   * cannot start the keyword, are counted twice.
   */
  lemma {:induction false} CountTwo(kw: string, w1: string, w2: string, body: string, gap: string)
    requires |kw| >= 1
    requires |w1| >= 1 && forall i :: 0 <= i < |w1| ==> IsWordChar(w1[i])
    requires |w2| >= 1 && forall i :: 0 <= i < |w2| ==> IsWordChar(w2[i])
    requires |body| >= 1 && !IsWordChar(body[0])
    requires forall i :: 0 <= i < |body| ==> body[i] != kw[0]
    requires forall i :: 0 <= i < |gap| ==> gap[i] != kw[0]
    ensures Count(kw, kw + " " + w1 + (body + gap + (kw + " " + w2 + body))) == 2
  {
    var second := kw + " " + w2 + body;
    var rest := body + gap + second;
    KeywordThenWord(kw, w2, body);
    assert second == (kw + " " + w2) + body;
    CountTakesMatch(kw, kw + " " + w2, body);
    CountSkips(kw, body, []);
    assert body + [] == body;
    assert rest == (body + gap) + second;
    CountSkips(kw, body + gap, second);
    KeywordThenWord(kw, w1, rest);
    assert kw + " " + w1 + rest == (kw + " " + w1) + rest;
    CountTakesMatch(kw, kw + " " + w1, rest);
  }

  lemma TwoDefinitionsText()
    ensures "def foo():\n  pass\ndef bar():\n  pass"
         == "def" + " " + "foo" + ("():\n  pass" + "\n" + ("def" + " " + "bar" + "():\n  pass"))
  {
  }

  /** The two functions of `def foo():\n  pass\ndef bar():\n  pass` are both counted. */
  lemma TwoDefinitions()
    ensures Count("def", "def foo():\n  pass\ndef bar():\n  pass") == 2
  {
    var body := "():\n  pass";
    assert forall i :: 0 <= i < |body| ==> body[i] != 'd';
    CountTwo("def", "foo", "bar", body, "\n");
    TwoDefinitionsText();
  }
}
