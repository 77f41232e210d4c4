/** Character classes and string rewrites shared by the slug rules, the
    e-mail check, the blog search and the reading-time estimate. Characters
    are Unicode scalar values; case mapping is modelled for ASCII letters. */
module Text {
  import opened Common

  /** ECMAScript white space and line terminators: the class matched by the
      regular-expression escape `\s` and removed by `String.prototype.trim`. */
  predicate IsSpace(c: char) {
    var n := c as int;
    || (9 <= n <= 13)            // tab, line feed, vertical tab, form feed, carriage return
    || n == 0x20 || n == 0xA0 || n == 0x1680
    || (0x2000 <= n <= 0x200A)
    || n == 0x2028 || n == 0x2029 || n == 0x202F || n == 0x205F
    || n == 0x3000 || n == 0xFEFF
  }

  /** The regular-expression class `\w`: ASCII letters, digits and `_`. */
  predicate IsWordChar(c: char) {
    ('a' <= c <= 'z') || ('A' <= c <= 'Z') || ('0' <= c <= '9') || c == '_'
  }

  /** `toLowerCase` on one character, for the ASCII range. */
  function LowerChar(c: char): (r: char)
    ensures !('A' <= r <= 'Z')
    ensures ('A' <= c <= 'Z') || r == c
  {
    if 'A' <= c <= 'Z' then (c as int + 32) as char else c
  }

  /** `s.toLowerCase()` with ASCII case mapping. */
  function Lower(s: string): (r: string)
    ensures |r| == |s|
    ensures forall i :: 0 <= i < |s| ==> r[i] == LowerChar(s[i])
  {
    seq(|s|, i requires 0 <= i < |s| => LowerChar(s[i]))
  }

  lemma LowerIdempotent(s: string)
    ensures Lower(Lower(s)) == Lower(s)
  {
  }

  lemma LowerAppend(a: string, b: string)
    ensures Lower(a + b) == Lower(a) + Lower(b)
  {
  }

  /** Lower-casing moves no white space and creates none. */
  lemma LowerKeepsSpaces(s: string)
    ensures forall i :: 0 <= i < |s| ==> (IsSpace(Lower(s)[i]) <==> IsSpace(s[i]))
  {
  }

  /** The length of the longest prefix of `s` whose characters satisfy `p`. */
  function RunLength(s: string, p: char -> bool): (n: nat)
    ensures n <= |s|
    ensures forall i :: 0 <= i < n ==> p(s[i])
    ensures n < |s| ==> !p(s[n])
    decreases |s|
  {
    if |s| == 0 || !p(s[0]) then 0 else 1 + RunLength(s[1..], p)
  }

  /** The characters a run replacement leaves alone: those outside every
      run that are not the replacement character either. */
  function Untouched(p: char -> bool, c: char): char -> bool {
    x => x != c && !p(x)
  }

  /** How long the leading run of `a + b` is: it stops inside `a` when `a`
      is not one run, and continues into `b` otherwise. */
  lemma {:induction false} RunLengthAppend(a: string, b: string, p: char -> bool)
    ensures RunLength(a + b, p) == if RunLength(a, p) < |a| then RunLength(a, p) else |a| + RunLength(b, p)
    decreases |a|
  {
    if |a| == 0 {
      assert a + b == b;
    } else if p(a[0]) {
      assert (a + b)[1..] == a[1..] + b;
      RunLengthAppend(a[1..], b, p);
    }
  }

  /** `s.replace(/P+/g, c)`: every maximal run of characters satisfying `p`
      becomes the single character `c`; everything else is kept in order. */
  function ReplaceRuns(s: string, p: char -> bool, c: char): (r: string)
    ensures |r| <= |s|
    ensures |s| > 0 ==> |r| > 0 && r[0] == (if p(s[0]) then c else s[0])
    ensures forall i :: 0 <= i < |r| ==> r[i] == c || (r[i] in s && !p(r[i]))
    ensures p(c) ==> forall i :: 0 < i < |r| ==> !(p(r[i - 1]) && p(r[i]))
    decreases |s|
  {
    if |s| == 0 then ""
    else if p(s[0]) then
      var n := RunLength(s, p);
      var rest := ReplaceRuns(s[n..], p, c);
      assert forall i :: 0 <= i < |rest| ==> rest[i] == c || (rest[i] in s && !p(rest[i])) by {
        forall i | 0 <= i < |rest| && rest[i] != c ensures rest[i] in s {
          assert rest[i] in s[n..];
        }
      }
      [c] + rest
    else
      var rest := ReplaceRuns(s[1..], p, c);
      [s[0]] + rest
  }

  /** Apart from the runs and the replacement character itself, nothing is
      dropped, added or reordered. */
  lemma {:induction false} ReplaceRunsKeepsUntouched(s: string, p: char -> bool, c: char)
    ensures Filter(ReplaceRuns(s, p, c), Untouched(p, c)) == Filter(s, Untouched(p, c))
    decreases |s|
  {
    if |s| > 0 {
      if p(s[0]) {
        var n := RunLength(s, p);
        ReplaceRunsKeepsUntouched(s[n..], p, c);
        FilterCons(c, ReplaceRuns(s[n..], p, c), Untouched(p, c));
        FilterSkipsRun(s, p, c);
      } else {
        ReplaceRunsKeepsUntouched(s[1..], p, c);
        FilterCons(s[0], ReplaceRuns(s[1..], p, c), Untouched(p, c));
        FilterCons(s[0], s[1..], Untouched(p, c));
        assert s == [s[0]] + s[1..];
      }
    }
  }

  lemma FilterSkipsRun(s: string, p: char -> bool, c: char)
    requires |s| > 0 && p(s[0])
    ensures Filter(s, Untouched(p, c)) == Filter(s[RunLength(s, p)..], Untouched(p, c))
  {
    var n := RunLength(s, p);
    assert s == s[..n] + s[n..];
    FilterAppend(s[..n], s[n..], Untouched(p, c));
    FilterKeepsNone(s[..n], Untouched(p, c));
  }

  /** A run of `p` characters alone becomes the one character `c`. */
  lemma ReplaceRunsOfRun(s: string, p: char -> bool, c: char)
    requires |s| > 0 && forall i :: 0 <= i < |s| ==> p(s[i])
    ensures ReplaceRuns(s, p, c) == [c]
  {
    assert RunLength(s, p) == |s|;
    assert s[|s|..] == "";
  }

  /** Replacing runs works piece by piece across a boundary that does not
      cut through a run; together with `ReplaceRunsOfRun` and
      `ReplaceRunsIdentity` this fixes where every replacement falls. */
  lemma {:induction false} ReplaceRunsAppend(a: string, b: string, p: char -> bool, c: char)
    requires |a| == 0 || |b| == 0 || !p(a[|a| - 1]) || !p(b[0])
    ensures ReplaceRuns(a + b, p, c) == ReplaceRuns(a, p, c) + ReplaceRuns(b, p, c)
    decreases |a|, 2
  {
    if |a| == 0 {
      assert a + b == b;
    } else if |b| == 0 {
      assert a + b == a;
    } else if p(a[0]) {
      AppendAfterRun(a, b, p, c);
    } else {
      AppendAfterPlain(a, b, p, c);
    }
  }

  /** `ReplaceRunsAppend` when `a` starts with a run. */
  lemma {:induction false} AppendAfterRun(a: string, b: string, p: char -> bool, c: char)
    requires |a| > 0 && |b| > 0 && p(a[0])
    requires !p(a[|a| - 1]) || !p(b[0])
    ensures ReplaceRuns(a + b, p, c) == ReplaceRuns(a, p, c) + ReplaceRuns(b, p, c)
    decreases |a|, 1
  {
    if RunLength(a, p) < |a| {
      AppendAfterShortRun(a, b, p, c);
    } else {
      AppendAfterWholeRun(a, b, p, c);
    }
  }

  /** `ReplaceRunsAppend` when `a` starts with a run that ends inside it. */
  lemma {:induction false} AppendAfterShortRun(a: string, b: string, p: char -> bool, c: char)
    requires |a| > 0 && |b| > 0 && p(a[0]) && RunLength(a, p) < |a|
    requires !p(a[|a| - 1]) || !p(b[0])
    ensures ReplaceRuns(a + b, p, c) == ReplaceRuns(a, p, c) + ReplaceRuns(b, p, c)
    decreases |a|, 0
  {
    var a' := a[RunLength(a, p)..];
    RunSplit(a, b, p, c);
    assert a'[|a'| - 1] == a[|a| - 1];
    ReplaceRunsAppend(a', b, p, c);
    ConsAssoc(c, ReplaceRuns(a', p, c), ReplaceRuns(b, p, c));
  }

  /** The first run of `a` is also the first run of `a + b` when it ends
      inside `a`. */
  lemma RunSplit(a: string, b: string, p: char -> bool, c: char)
    requires |a| > 0 && p(a[0]) && RunLength(a, p) < |a|
    ensures ReplaceRuns(a + b, p, c) == [c] + ReplaceRuns(a[RunLength(a, p)..] + b, p, c)
    ensures ReplaceRuns(a, p, c) == [c] + ReplaceRuns(a[RunLength(a, p)..], p, c)
  {
    var m := RunLength(a, p);
    assert RunLength(a + b, p) == m by {
      RunLengthAppend(a, b, p);
    }
    RunStepAt(a + b, p, c, m);
    assert (a + b)[m..] == a[m..] + b;
    RunStep(a, p, c);
  }

  lemma RunStepAt(s: string, p: char -> bool, c: char, m: nat)
    requires |s| > 0 && p(s[0]) && m == RunLength(s, p)
    ensures ReplaceRuns(s, p, c) == [c] + ReplaceRuns(s[m..], p, c)
  {
    RunStep(s, p, c);
  }

  /** `ReplaceRunsAppend` when `a` is one run. */
  lemma AppendAfterWholeRun(a: string, b: string, p: char -> bool, c: char)
    requires |a| > 0 && |b| > 0 && RunLength(a, p) == |a| && !p(b[0])
    ensures ReplaceRuns(a + b, p, c) == ReplaceRuns(a, p, c) + ReplaceRuns(b, p, c)
  {
    assert ReplaceRuns(a + b, p, c) == [c] + ReplaceRuns(b, p, c) by {
      RunLengthAppend(a, b, p);
      RunStep(a + b, p, c);
      assert (a + b)[|a|..] == b;
    }
    assert ReplaceRuns(a, p, c) == [c] by {
      RunStep(a, p, c);
      assert a[|a|..] == "";
    }
  }

  /** `ReplaceRunsAppend` when `a` starts with a character outside `p`. */
  lemma {:induction false} AppendAfterPlain(a: string, b: string, p: char -> bool, c: char)
    requires |a| > 0 && |b| > 0 && !p(a[0])
    requires !p(a[|a| - 1]) || !p(b[0])
    ensures ReplaceRuns(a + b, p, c) == ReplaceRuns(a, p, c) + ReplaceRuns(b, p, c)
    decreases |a|, 1
  {
    var a' := a[1..];
    PlainStep(a, p, c);
    assert (a + b)[0] == a[0] && (a + b)[1..] == a' + b;
    PlainStep(a + b, p, c);
    assert |a'| > 0 ==> a'[|a'| - 1] == a[|a| - 1];
    ReplaceRunsAppend(a', b, p, c);
    ConsAssoc(a[0], ReplaceRuns(a', p, c), ReplaceRuns(b, p, c));
  }

  /** A non-empty run between two pieces that do not reach into it becomes
      the one character `c` between the two pieces' results. */
  lemma ReplaceRunsAroundGap(a: string, gap: string, b: string, p: char -> bool, c: char)
    requires |a| == 0 || !p(a[|a| - 1])
    requires |b| == 0 || !p(b[0])
    requires |gap| > 0 && forall i :: 0 <= i < |gap| ==> p(gap[i])
    ensures ReplaceRuns(a + gap + b, p, c) == ReplaceRuns(a, p, c) + [c] + ReplaceRuns(b, p, c)
  {
    GapFollows(a, gap, b, p, c);
    ReplaceRunsLeadingRun(gap, b, p, c);
    AppendAssoc(a, gap, b);
    AppendAssoc(ReplaceRuns(a, p, c), [c], ReplaceRuns(b, p, c));
  }

  lemma GapFollows(a: string, gap: string, b: string, p: char -> bool, c: char)
    requires |a| == 0 || !p(a[|a| - 1])
    ensures ReplaceRuns(a + (gap + b), p, c) == ReplaceRuns(a, p, c) + ReplaceRuns(gap + b, p, c)
  {
    ReplaceRunsAppend(a, gap + b, p, c);
  }

  /** A non-empty run in front of a piece not starting with `p` becomes `c`. */
  lemma ReplaceRunsLeadingRun(gap: string, b: string, p: char -> bool, c: char)
    requires |b| == 0 || !p(b[0])
    requires |gap| > 0 && forall i :: 0 <= i < |gap| ==> p(gap[i])
    ensures ReplaceRuns(gap + b, p, c) == [c] + ReplaceRuns(b, p, c)
  {
    ReplaceRunsAppend(gap, b, p, c);
    ReplaceRunsOfRun(gap, p, c);
  }

  lemma RunStep(s: string, p: char -> bool, c: char)
    requires |s| > 0 && p(s[0])
    ensures ReplaceRuns(s, p, c) == [c] + ReplaceRuns(s[RunLength(s, p)..], p, c)
  {
  }

  lemma PlainStep(s: string, p: char -> bool, c: char)
    requires |s| > 0 && !p(s[0])
    ensures ReplaceRuns(s, p, c) == [s[0]] + ReplaceRuns(s[1..], p, c)
  {
  }

  /** A string already in normal form is left alone: each character
      satisfying `p` is `c` itself and no two of them are adjacent. */
  lemma {:induction false} ReplaceRunsIdentity(s: string, p: char -> bool, c: char)
    requires forall i :: 0 <= i < |s| && p(s[i]) ==> s[i] == c
    requires forall i :: 0 < i < |s| ==> !(p(s[i - 1]) && p(s[i]))
    ensures ReplaceRuns(s, p, c) == s
    decreases |s|
  {
    if |s| > 0 {
      ReplaceRunsIdentity(s[1..], p, c);
      if p(s[0]) {
        assert |s| == 1 || !p(s[1]);
        assert RunLength(s, p) == 1;
      }
      assert s == [s[0]] + s[1..];
    }
  }

  /** `s.trimStart()`. */
  function TrimStart(s: string): (r: string)
    ensures |r| <= |s| && r == s[|s| - |r|..]
    ensures |r| > 0 ==> !IsSpace(r[0])
    ensures forall i :: 0 <= i < |s| - |r| ==> IsSpace(s[i])
  {
    s[RunLength(s, IsSpace)..]
  }

  /** `s.trimEnd()`. */
  function TrimEnd(s: string): (r: string)
    ensures |r| <= |s| && r == s[..|r|]
    ensures |r| > 0 ==> !IsSpace(r[|r| - 1])
    ensures forall i :: |r| <= i < |s| ==> IsSpace(s[i])
    decreases |s|
  {
    if |s| == 0 || !IsSpace(s[|s| - 1]) then s else TrimEnd(s[..|s| - 1])
  }

  /** `s.trim()`: white space removed from both ends, the middle untouched. */
  function Trim(s: string): (r: string)
    ensures |r| <= |s|
    ensures |r| > 0 ==> !IsSpace(r[0]) && !IsSpace(r[|r| - 1])
    ensures OccursAt(s, r, |s| - |TrimStart(s)|)
    ensures forall i :: 0 <= i < |s| && !IsSpace(s[i]) ==> |s| - |TrimStart(s)| <= i < |s| - |TrimStart(s)| + |r|
  {
    TrimWindow(s);
    TrimEnd(TrimStart(s))
  }

  /** Where the trimmed text sits in the original: right after the leading
      white space, with only white space after it. */
  lemma TrimWindow(s: string)
    ensures var t := TrimStart(s); var r := TrimEnd(t);
            && OccursAt(s, r, |s| - |t|)
            && forall i :: 0 <= i < |s| && !IsSpace(s[i]) ==> |s| - |t| <= i < |s| - |t| + |r|
  {
    var t := TrimStart(s);
    var r := TrimEnd(t);
    var k := |s| - |t|;
    assert s[k..k + |r|] == r by {
      assert t == s[k..];
      assert r == t[..|r|];
    }
    assert forall i :: k + |r| <= i < |s| ==> s[i] == t[i - k];
  }

  /** A string ending in a character other than white space keeps that
      character last when trimmed. */
  lemma TrimKeepsLast(s: string)
    requires |s| > 0 && !IsSpace(s[|s| - 1])
    ensures |Trim(s)| > 0 && Trim(s)[|Trim(s)| - 1] == s[|s| - 1]
  {
    TrimWindow(s);
    var r := Trim(s);
    var k := |s| - |TrimStart(s)|;
    assert k + |r| == |s|;
    assert r == s[k..k + |r|];
  }

  /** A string that neither starts nor ends with white space is its own
      trim, whatever it holds inside. */
  lemma TrimSolid(s: string)
    requires |s| > 0 ==> !IsSpace(s[0]) && !IsSpace(s[|s| - 1])
    ensures Trim(s) == s
  {
    if |s| > 0 {
      assert RunLength(s, IsSpace) == 0;
    }
  }

  /** White space around a string whose ends are not white space is
      exactly what trimming removes. */
  lemma TrimPadding(front: string, s: string, back: string)
    requires |s| > 0 && !IsSpace(s[0]) && !IsSpace(s[|s| - 1])
    requires forall i :: 0 <= i < |front| ==> IsSpace(front[i])
    requires forall i :: 0 <= i < |back| ==> IsSpace(back[i])
    ensures Trim(front + s + back) == s
  {
    var all := front + s + back;
    var r := Trim(all);
    var k := |all| - |TrimStart(all)|;
    assert all[|front|] == s[0] && all[|front| + |s| - 1] == s[|s| - 1];
    assert r[0] == all[k] && r[|r| - 1] == all[k + |r| - 1];
    assert k == |front| && |r| == |s|;
    assert r == all[|front|..|front| + |s|];
  }

  /** A string without white space is its own trim. */
  lemma TrimNoSpace(s: string)
    requires forall i :: 0 <= i < |s| ==> !IsSpace(s[i])
    ensures Trim(s) == s
  {
    assert RunLength(s, IsSpace) == 0;
  }

  /** `sub` occurs in `s` starting at position `k`. */
  predicate OccursAt(s: string, sub: string, k: nat) {
    k + |sub| <= |s| && s[k..k + |sub|] == sub
  }

  /** `s.includes(sub)`: `sub` occurs in `s` at some position. */
  function Contains(s: string, sub: string): (r: bool)
    ensures r <==> exists k: nat :: OccursAt(s, sub, k)
    decreases |s|
  {
    if |sub| > |s| then false
    else if s[..|sub|] == sub then assert OccursAt(s, sub, 0); true
    else
      var r := Contains(s[1..], sub);
      assert r ==> exists k: nat :: OccursAt(s, sub, k) by {
        if r {
          var k: nat :| OccursAt(s[1..], sub, k);
          assert s[k + 1..k + 1 + |sub|] == s[1..][k..k + |sub|];
          assert OccursAt(s, sub, k + 1);
        }
      }
      assert (exists k: nat :: OccursAt(s, sub, k)) ==> r by {
        if exists k: nat :: OccursAt(s, sub, k) {
          var k: nat :| OccursAt(s, sub, k);
          assert k != 0;
          assert s[1..][k - 1..k - 1 + |sub|] == s[k..k + |sub|];
          assert OccursAt(s[1..], sub, k - 1);
        }
      }
      r
  }

  /** The empty string occurs in every string. */
  lemma ContainsEmpty(s: string)
    ensures Contains(s, "")
  {
    assert OccursAt(s, "", 0);
  }
}
