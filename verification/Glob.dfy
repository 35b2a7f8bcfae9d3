/**
 Shell-style pattern matching as done by POSIX `fnmatch()` called with flags 0
 (POSIX.1-2017, Shell Command Language, section 2.13 "Pattern Matching
 Notation"): `?` matches any single character (2.13.1), `*` matches any
 string, including the empty one (2.13.2), every other character matches
 itself. With flags 0, `/` and a leading `.` are ordinary characters.
 Bracket expressions and backslash quoting are not modelled: `[`, `]` and `\`
 are treated here as ordinary characters.
 */
module Glob {

  /** True iff the pattern has neither `*` nor `?`. */
  predicate Literal(p: string)
  {
    forall i :: 0 <= i < |p| ==> p[i] != '*' && p[i] != '?'
  }

  /** True iff the single pattern character `c` (not `*`) matches `x`. */
  predicate CharMatches(c: char, x: char)
  {
    c == '?' || c == x
  }

  /** The matcher: one left-to-right pass that lets `*` either stop or swallow one more character. */
  predicate Match(p: string, s: string)
    decreases |p| + |s|
  {
    if |p| == 0 then |s| == 0
    else if p[0] == '*' then Match(p[1..], s) || (|s| > 0 && Match(p, s[1..]))
    else |s| > 0 && CharMatches(p[0], s[0]) && Match(p[1..], s[1..])
  }

  /**
   Reference semantics, independent of the matcher's search order: a `*`
   stands for SOME prefix of the remaining text, of any length.
   */
  ghost predicate Denotes(p: string, s: string)
    decreases |p|
  {
    if |p| == 0 then |s| == 0
    else if p[0] == '*' then exists k :: 0 <= k <= |s| && Denotes(p[1..], s[k..])
    else |s| > 0 && CharMatches(p[0], s[0]) && Denotes(p[1..], s[1..])
  }

  /** The matcher decides exactly the reference semantics. */
  lemma {:induction false} MatchIsDenotes(p: string, s: string)
    ensures Match(p, s) <==> Denotes(p, s)
    decreases |p| + |s|
  {
    if |p| == 0 {
    } else if p[0] == '*' {
      MatchIsDenotes(p[1..], s);
      if |s| > 0 {
        MatchIsDenotes(p, s[1..]);
      }
      if Match(p, s) {
        if Match(p[1..], s) {
          assert s[0..] == s;
          assert Denotes(p[1..], s[0..]);
        } else {
          assert Denotes(p, s[1..]);
          var k :| 0 <= k <= |s[1..]| && Denotes(p[1..], s[1..][k..]);
          assert s[1..][k..] == s[k + 1..];
          assert Denotes(p[1..], s[k + 1..]);
        }
      }
      if Denotes(p, s) {
        var k :| 0 <= k <= |s| && Denotes(p[1..], s[k..]);
        if k == 0 {
          assert s[k..] == s;
        } else {
          assert s[1..][k - 1..] == s[k..];
          assert Denotes(p[1..], s[1..][k - 1..]);
          assert Denotes(p, s[1..]);
        }
      }
    } else {
      if |s| > 0 {
        MatchIsDenotes(p[1..], s[1..]);
      }
    }
  }

  /** A lone `*` matches every string, including the empty one and ones holding `/`. */
  lemma {:induction false} StarMatchesAll(s: string)
    ensures Match("*", s)
    decreases |s|
  {
    if |s| > 0 {
      StarMatchesAll(s[1..]);
    }
  }

  /** A lone `?` matches exactly the strings of one character. */
  lemma QuestionMatchesOneChar(s: string)
    ensures Match("?", s) <==> |s| == 1
  {
  }

  /** A wildcard-free pattern matches itself and nothing else: matching is case-sensitive. */
  lemma {:induction false} LiteralMatchesOnlyItself(p: string, s: string)
    requires Literal(p)
    ensures Match(p, s) <==> s == p
    decreases |p|
  {
    if |p| > 0 && |s| > 0 {
      assert Literal(p[1..]) by {
        forall i | 0 <= i < |p[1..]|
          ensures p[1..][i] != '*' && p[1..][i] != '?'
        {
          assert p[1..][i] == p[i + 1];
        }
      }
      LiteralMatchesOnlyItself(p[1..], s[1..]);
      if s == p {
        assert s[1..] == p[1..];
      }
      if p[0] == s[0] && s[1..] == p[1..] {
        assert s == [s[0]] + s[1..];
        assert p == [p[0]] + p[1..];
      }
    }
  }

  /** A literal prefix followed by `*` matches exactly the strings that start with that prefix. */
  lemma {:induction false} PrefixStarMatchesExtensions(q: string, s: string)
    requires Literal(q)
    ensures Match(q + "*", s) <==> |q| <= |s| && s[..|q|] == q
    decreases |q|
  {
    if |q| == 0 {
      assert q + "*" == "*";
      StarMatchesAll(s);
    } else {
      var p := q + "*";
      assert p[0] == q[0] && p[1..] == q[1..] + "*";
      assert Literal(q[1..]) by {
        forall i | 0 <= i < |q[1..]|
          ensures q[1..][i] != '*' && q[1..][i] != '?'
        {
          assert q[1..][i] == q[i + 1];
        }
      }
      if |s| > 0 {
        PrefixStarMatchesExtensions(q[1..], s[1..]);
        if |q| <= |s| {
          assert s[..|q|] == [s[0]] + s[1..][..|q| - 1];
          assert q == [q[0]] + q[1..];
        }
      }
    }
  }

  /** `MAXPATHLEN` on Linux: PHP's `fnmatch` refuses a pattern or a path of this length or longer. */
  const MaxPathLen: nat := 4096

  /**
   PHP's `fnmatch($pattern, $filename)` with flags 0: false (with a warning)
   when either string holds a NUL character or is `MaxPathLen` characters
   long or longer, and otherwise the answer of the C matcher.
   */
  predicate Fnmatch(p: string, s: string)
  {
    |p| < MaxPathLen && |s| < MaxPathLen && '\0' !in p && '\0' !in s && Match(p, s)
  }

  /**
   A pattern without wildcards, as an exact request path would be declared,
   fnmatches only the path equal to it, and only while it is within PHP's limits.
   */
  lemma LiteralFnmatchesOnlyItself(p: string, s: string)
    requires Literal(p)
    ensures Fnmatch(p, s) <==> s == p && |p| < MaxPathLen && '\0' !in p
  {
    LiteralMatchesOnlyItself(p, s);
  }

  /** PHP's `fnmatch("*", $path)` holds exactly for the paths shorter than `MaxPathLen` without NUL. */
  lemma StarFnmatchesShortPaths(s: string)
    ensures Fnmatch("*", s) <==> |s| < MaxPathLen && '\0' !in s
  {
    StarMatchesAll(s);
  }

  /** Within PHP's limits, a literal prefix followed by `*` matches exactly the paths that start with that prefix. */
  lemma PrefixStarFnmatchesExtensions(q: string, s: string)
    requires Literal(q) && |q| + 1 < MaxPathLen && |s| < MaxPathLen && '\0' !in q && '\0' !in s
    ensures Fnmatch(q + "*", s) <==> |q| <= |s| && s[..|q|] == q
  {
    PrefixStarMatchesExtensions(q, s);
    assert '\0' !in q + "*";
  }
}
