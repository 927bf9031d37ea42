/** CoT type patterns (pkg/cot/filter.go). */
module Filter {
  import opened Strings

  predicate MatchPattern(a: string, pattern: string) {
    if pattern == ".-" then true
    else if a == pattern then true
    else if HasPrefix(a, pattern) && HasSuffix(pattern, "-") then true
    else if '.' !in pattern then false
    else
      var at := Split(a, '-');
      var pt := Split(TrimRight(pattern, '-'), '-');
      if |at| < |pt| then false
      else if exists i :: 0 <= i < |pt| && pt[i] != at[i] && pt[i] != "." then false
      else if HasSuffix(pattern, "-") then |at| > |pt|
      else |at| == |pt|
  }

  predicate MatchAnyPattern(a: string, patterns: seq<string>) {
    exists p | p in patterns :: MatchPattern(a, p)
  }

  /** One uniform reading of a pattern: "." stands for any one segment, and a
      trailing dash asks for at least one segment more. */
  predicate SegmentMatch(a: string, pattern: string) {
    var at := Split(a, '-');
    var pt := Split(TrimRight(pattern, '-'), '-');
    && (if HasSuffix(pattern, "-") then |at| > |pt| else |at| == |pt|)
    && forall i :: 0 <= i < |pt| ==> pt[i] == "." || pt[i] == at[i]
  }

  lemma {:induction false} TrimRightRest(s: string, c: char)
    ensures TrimRight(s, c) <= s
    ensures forall i :: |TrimRight(s, c)| <= i < |s| ==> s[i] == c
    ensures s != "" && s[|s| - 1] == c ==> |TrimRight(s, c)| < |s|
    ensures TrimRight(s, c) != "" ==> TrimRight(s, c)[|TrimRight(s, c)| - 1] != c
  {
    if s != "" && s[|s| - 1] == c {
      TrimRightRest(s[..|s| - 1], c);
    }
  }

  /** The prefix shortcut is one instance of the uniform reading. */
  lemma {:induction false} PrefixIsSegmentMatch(a: string, pattern: string)
    requires HasPrefix(a, pattern) && HasSuffix(pattern, "-")
    ensures SegmentMatch(a, pattern)
  {
    var q := TrimRight(pattern, '-');
    TrimRightRest(pattern, '-');
    assert a == q + ['-'] + a[|q| + 1..];
    SplitConcat(q, a[|q| + 1..], '-');
  }

  lemma {:induction false} NoWildcardSegments(pattern: string)
    requires '.' !in pattern
    ensures "." !in Split(TrimRight(pattern, '-'), '-')
  {
    var q := TrimRight(pattern, '-');
    TrimRightRest(pattern, '-');
    forall p | p in Split(q, '-') ensures p != "." {
      SegmentChars(q, '-', p);
      assert p != "" ==> p[0] in q;
    }
  }

  /** A segment's characters all come from the string it was cut from. */
  lemma {:induction false} SegmentChars(s: string, sep: char, p: string)
    requires p in Split(s, sep)
    ensures forall c | c in p :: c in s
  {
    if s != "" {
      var rest := Split(s[1..], sep);
      if p in rest {
        SegmentChars(s[1..], sep, p);
      } else if s[0] != sep {
        SegmentChars(s[1..], sep, rest[0]);
      }
    }
  }

  /** The leading segments of a type, joined, are a prefix of it that ends at a dash. */
  lemma {:induction false} LeadingSegments(a: string, pt: seq<string>)
    requires pt != [] && |pt| <= |Split(a, '-')| && Split(a, '-')[..|pt|] == pt
    ensures if |pt| == |Split(a, '-')| then a == Join(pt, '-') else HasPrefix(a, Join(pt, '-') + ['-'])
  {
    var at := Split(a, '-');
    JoinSplit(a, '-');
    if |pt| < |at| {
      var rest := at[|pt|..];
      assert at == pt + rest;
      JoinConcat(pt, rest, '-');
    } else {
      assert at == pt;
    }
  }

  lemma {:induction false} EndsInDash(s: string)
    ensures HasSuffix(s, "-") <==> s != "" && s[|s| - 1] == '-'
  {
    if s != "" {
      assert s[|s| - 1..] == [s[|s| - 1]];
    }
  }

  lemma {:induction false} EndsInDashes(s: string)
    ensures HasSuffix(s, "--") <==> |s| >= 2 && s[|s| - 2] == '-' && s[|s| - 1] == '-'
  {
    if |s| >= 2 {
      assert s[|s| - 2..] == [s[|s| - 2], s[|s| - 1]];
    }
  }

  /** A pattern with at most one trailing dash, without it. */
  lemma {:induction false} OneDashOff(pattern: string)
    requires !HasSuffix(pattern, "--")
    ensures pattern == TrimRight(pattern, '-') + (if HasSuffix(pattern, "-") then ['-'] else [])
  {
    TrimRightRest(pattern, '-');
    EndsInDash(pattern);
    EndsInDashes(pattern);
    assert |pattern| - |TrimRight(pattern, '-')| == if HasSuffix(pattern, "-") then 1 else 0;
  }

  /** Without wildcards the uniform reading of a pattern with at most one
      trailing dash is equality or prefix. */
  lemma {:induction false} LiteralSegmentMatch(a: string, pattern: string)
    requires '.' !in pattern && !HasSuffix(pattern, "--")
    requires SegmentMatch(a, pattern)
    ensures if HasSuffix(pattern, "-") then HasPrefix(a, pattern) else a == pattern
  {
    var q := TrimRight(pattern, '-');
    var at, pt := Split(a, '-'), Split(q, '-');
    NoWildcardSegments(pattern);
    OneDashOff(pattern);
    JoinSplit(q, '-');
    forall i | 0 <= i < |pt| ensures pt[i] == at[i] {
      assert pt[i] in pt;
    }
    assert at[..|pt|] == pt;
    LeadingSegments(a, pt);
  }

  /** The shortcuts and the loop together are the uniform matcher, for every
      type string. */
  lemma {:induction false} MatchesUniformly(a: string, pattern: string)
    requires pattern != ".-"
    requires !HasSuffix(pattern, "--") || '.' in pattern
    ensures MatchPattern(a, pattern) == SegmentMatch(a, pattern)
  {
    if HasPrefix(a, pattern) && HasSuffix(pattern, "-") {
      PrefixIsSegmentMatch(a, pattern);
    } else if a == pattern {
      ItselfMatches(a);
    } else if '.' in pattern {
      LoopIsSegmentMatch(a, pattern);
    } else if SegmentMatch(a, pattern) {
      LiteralSegmentMatch(a, pattern);
      assert false;
    }
  }

  lemma {:induction false} ItselfMatches(a: string)
    requires !HasSuffix(a, "-")
    ensures SegmentMatch(a, a)
  {
    TrimRightRest(a, '-');
    EndsInDash(a);
    assert TrimRight(a, '-') == a;
  }

  /** The loop after the shortcuts. */
  lemma {:induction false} LoopIsSegmentMatch(a: string, pattern: string)
    requires pattern != ".-" && a != pattern && !(HasPrefix(a, pattern) && HasSuffix(pattern, "-")) && '.' in pattern
    ensures MatchPattern(a, pattern) == SegmentMatch(a, pattern)
  {
  }

  /** A pattern without wildcards and without a trailing dash matches itself only. */
  lemma {:induction false} PlainMatch(a: string, pattern: string)
    requires '.' !in pattern && !HasSuffix(pattern, "-")
    ensures MatchPattern(a, pattern) <==> a == pattern
  {
    assert ".-"[0] == '.';
  }

  lemma {:induction false} DotDash()
    ensures TrimRight(".-", '-') == "." && Split(".", '-') == ["."] && Split("", '-') == [""]
  {
    assert ".-"[..1] == ".";
    assert TrimRight(".", '-') == ".";
    SplitNoSep(".", '-');
  }

  /** A type that the uniform reading of a literal pattern with several trailing
      dashes accepts and MatchPattern does not. */
  lemma {:induction false} DoubleDashWitness(pattern: string) returns (a: string)
    requires HasSuffix(pattern, "--") && '.' !in pattern
    ensures !MatchPattern(a, pattern) && SegmentMatch(a, pattern)
  {
    var q := TrimRight(pattern, '-');
    a := q + ['-'] + "x";
    TrimRightRest(pattern, '-');
    var n := |pattern|;
    EndsInDashes(pattern);
    assert |q| <= n - 2;
    assert a[|q| + 1] == 'x' && pattern[|q| + 1] == '-';
    SplitConcat(q, "x", '-');
    SplitNoSep("x", '-');
  }

  /** Exactly which patterns have the uniform reading on every type string. */
  lemma {:induction false} UniformExactlyWhen(pattern: string)
    ensures (forall a :: MatchPattern(a, pattern) == SegmentMatch(a, pattern))
       <==> (pattern != ".-" && (!HasSuffix(pattern, "--") || '.' in pattern))
  {
    if pattern == ".-" {
      DotDash();
      assert MatchPattern("", pattern) && !SegmentMatch("", pattern);
    } else if HasSuffix(pattern, "--") && '.' !in pattern {
      var a := DoubleDashWitness(pattern);
    } else {
      forall a ensures MatchPattern(a, pattern) == SegmentMatch(a, pattern) {
        MatchesUniformly(a, pattern);
      }
    }
  }

  /** The two families outside the uniform reading, described in full. */
  lemma {:induction false} OutsideUniform(a: string, pattern: string)
    ensures pattern == ".-" ==> MatchPattern(a, pattern) && (SegmentMatch(a, pattern) <==> '-' in a)
    ensures HasSuffix(pattern, "--") && '.' !in pattern ==> (MatchPattern(a, pattern) <==> HasPrefix(a, pattern))
  {
    if pattern == ".-" {
      DotDash();
      if '-' in a {
        var i :| 0 <= i < |a| && a[i] == '-';
        assert a == a[..i] + ['-'] + a[i + 1..];
        SplitConcat(a[..i], a[i + 1..], '-');
      } else {
        SplitNoSep(a, '-');
      }
    } else if HasSuffix(pattern, "--") {
      EndsInDash(pattern);
      EndsInDashes(pattern);
    }
  }

  /** Appending to a type keeps all its segments but the last. */
  lemma {:induction false} SplitExtend(a: string, ext: string, sep: char)
    ensures |Split(a + ext, sep)| >= |Split(a, sep)|
    ensures forall i :: 0 <= i < |Split(a, sep)| - 1 ==> Split(a + ext, sep)[i] == Split(a, sep)[i]
  {
    if a != "" {
      assert (a + ext)[1..] == a[1..] + ext;
      SplitExtend(a[1..], ext, sep);
    }
  }

  /** A match against a dash-ended pattern survives every extension of the type. */
  lemma {:induction false} MatchSurvivesExtension(a: string, ext: string, pattern: string)
    requires HasSuffix(pattern, "-") && MatchPattern(a, pattern)
    ensures MatchPattern(a + ext, pattern)
  {
    if !HasPrefix(a, pattern) {
      SplitExtend(a, ext, '-');
    }
  }
}
