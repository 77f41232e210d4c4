/** The two slug rules of the site: `generateSlug`
    (client/src/utils/helpers.ts), which sanitises a title, and the inline
    expression the admin page uses for new case studies
    (client/src/pages/Admin.tsx), which only lower-cases and joins words. */
module Slug {
  import opened Common
  import opened Text

  /** Characters that survive `.replace(/[^\w\s-]/g, '')`. */
  predicate Kept(c: char) {
    IsWordChar(c) || IsSpace(c) || c == '-'
  }

  predicate IsDash(c: char) {
    c == '-'
  }

  predicate NotDash(c: char) {
    c != '-'
  }

  /** A character that belongs to a word of the case-study slug: neither
      white space nor a dash. */
  predicate InWord(c: char) {
    !IsSpace(c) && c != '-'
  }

  /** The characters a slug can be made of: `[a-z0-9_-]`. */
  predicate IsSlugChar(c: char) {
    ('a' <= c <= 'z') || ('0' <= c <= '9') || c == '_' || c == '-'
  }

  /** A well-formed slug: slug characters only and no two dashes in a row. */
  predicate IsSlug(s: string) {
    && (forall i :: 0 <= i < |s| ==> IsSlugChar(s[i]))
    && (forall i :: 0 < i < |s| ==> !(IsDash(s[i - 1]) && IsDash(s[i])))
  }

  /** After lower-casing and dropping, only slug characters and white space
      are left. */
  lemma KeptChars(title: string)
    ensures forall i :: 0 <= i < |Filter(Lower(title), Kept)| ==>
              var c := Filter(Lower(title), Kept)[i]; IsSlugChar(c) || IsSpace(c)
  {
    var lowered := Lower(title);
    var kept := Filter(lowered, Kept);
    forall i | 0 <= i < |kept| ensures IsSlugChar(kept[i]) || IsSpace(kept[i]) {
      var j :| 0 <= j < |lowered| && lowered[j] == kept[i];
    }
  }

  /** Replacing white-space runs by dashes in such a string leaves slug
      characters only. */
  lemma DashedChars(kept: string)
    requires forall i :: 0 <= i < |kept| ==> IsSlugChar(kept[i]) || IsSpace(kept[i])
    ensures forall i :: 0 <= i < |ReplaceRuns(kept, IsSpace, '-')| ==> IsSlugChar(ReplaceRuns(kept, IsSpace, '-')[i])
  {
    var dashed := ReplaceRuns(kept, IsSpace, '-');
    forall i | 0 <= i < |dashed| ensures IsSlugChar(dashed[i]) {
      if dashed[i] != '-' {
        var j :| 0 <= j < |kept| && kept[j] == dashed[i];
      }
    }
  }

  /** Collapsing dash runs keeps a string of slug characters one. */
  lemma CollapsedChars(dashed: string)
    requires forall i :: 0 <= i < |dashed| ==> IsSlugChar(dashed[i])
    ensures IsSlug(ReplaceRuns(dashed, IsDash, '-'))
  {
    var collapsed := ReplaceRuns(dashed, IsDash, '-');
    forall i | 0 <= i < |collapsed| ensures IsSlugChar(collapsed[i]) {
      if collapsed[i] != '-' {
        var j :| 0 <= j < |dashed| && dashed[j] == collapsed[i];
      }
    }
  }

  /** A slug has no white space, so trimming it changes nothing. */
  lemma SlugTrim(s: string)
    requires IsSlug(s)
    ensures Trim(s) == s
  {
    SlugNoSpace(s);
    TrimNoSpace(s);
  }

  /** `generateSlug(title)`: lower-case, drop everything but word characters,
      white space and dashes, turn each white-space run into a dash, collapse
      dash runs, and trim. */
  function GenerateSlug(title: string): (r: string)
    ensures IsSlug(r)
    ensures forall i :: 0 <= i < |r| ==> !IsSpace(r[i])
    ensures |r| <= |title|
    ensures Filter(r, NotDash) == Filter(Lower(title), IsWordChar)
  {
    var collapsed := ReplaceRuns(ReplaceRuns(Filter(Lower(title), Kept), IsSpace, '-'), IsDash, '-');
    SlugSteps(title);
    SlugWordChars(title);
    Trim(collapsed)
  }

  /** The three replacements leave a slug, which trimming does not touch. */
  lemma SlugSteps(title: string)
    ensures var collapsed := ReplaceRuns(ReplaceRuns(Filter(Lower(title), Kept), IsSpace, '-'), IsDash, '-');
            && IsSlug(collapsed) && Trim(collapsed) == collapsed && |collapsed| <= |title|
            && forall i :: 0 <= i < |collapsed| ==> !IsSpace(collapsed[i])
  {
    var dashed := ReplaceRuns(Filter(Lower(title), Kept), IsSpace, '-');
    DashedSlugChars(title);
    var collapsed := ReplaceRuns(dashed, IsDash, '-');
    CollapsedChars(dashed);
    SlugTrim(collapsed);
    SlugNoSpace(collapsed);
  }

  /** After the first two replacements only slug characters are left. */
  lemma DashedSlugChars(title: string)
    ensures var dashed := ReplaceRuns(Filter(Lower(title), Kept), IsSpace, '-');
            forall i :: 0 <= i < |dashed| ==> IsSlugChar(dashed[i])
  {
    KeptChars(title);
    DashedChars(Filter(Lower(title), Kept));
  }

  lemma SlugNoSpace(s: string)
    requires IsSlug(s)
    ensures forall i :: 0 <= i < |s| ==> !IsSpace(s[i])
  {
    forall i | 0 <= i < |s| ensures !IsSpace(s[i]) {
      assert IsSlugChar(s[i]);
    }
  }

  /** Between the dashes, the slug spells out exactly the title's word
      characters, lower-cased, in order. */
  lemma SlugWordChars(title: string)
    ensures Filter(ReplaceRuns(ReplaceRuns(Filter(Lower(title), Kept), IsSpace, '-'), IsDash, '-'), NotDash)
            == Filter(Lower(title), IsWordChar)
  {
    var kept := Filter(Lower(title), Kept);
    CollapseKeepsLetters(ReplaceRuns(kept, IsSpace, '-'));
    DashKeepsLetters(kept);
    KeptLetters(Lower(title));
  }

  /** Collapsing dash runs only removes dashes. */
  lemma CollapseKeepsLetters(dashed: string)
    ensures Filter(ReplaceRuns(dashed, IsDash, '-'), NotDash) == Filter(dashed, NotDash)
  {
    var dashes := Untouched(IsDash, '-');
    ReplaceRunsKeepsUntouched(dashed, IsDash, '-');
    FilterCongruent(ReplaceRuns(dashed, IsDash, '-'), NotDash, dashes);
    FilterCongruent(dashed, NotDash, dashes);
  }

  /** Turning white-space runs into dashes keeps every character that is
      neither white space nor a dash. */
  lemma DashKeepsLetters(kept: string)
    ensures Filter(ReplaceRuns(kept, IsSpace, '-'), NotDash) == Filter(kept, Untouched(IsSpace, '-'))
  {
    var dashed := ReplaceRuns(kept, IsSpace, '-');
    assert forall i :: 0 <= i < |dashed| ==> !IsSpace(dashed[i]);
    FilterCongruent(dashed, NotDash, Untouched(IsSpace, '-'));
    ReplaceRunsKeepsUntouched(kept, IsSpace, '-');
  }

  /** Of the characters the first replace keeps, those neither white space
      nor a dash are the word characters. */
  lemma KeptLetters(lowered: string)
    ensures Filter(Filter(lowered, Kept), Untouched(IsSpace, '-')) == Filter(lowered, IsWordChar)
  {
    var spaces := Untouched(IsSpace, '-');
    forall i | 0 <= i < |lowered| ensures IsWordChar(lowered[i]) == (Kept(lowered[i]) && spaces(lowered[i])) {
      var c := lowered[i];
      assert spaces(c) == (c != '-' && !IsSpace(c));
    }
    FilterConjunction(lowered, Kept, spaces, IsWordChar);
  }

  lemma SlugLower(s: string)
    requires IsSlug(s)
    ensures Lower(s) == s
  {
    forall i | 0 <= i < |s| ensures Lower(s)[i] == s[i] {
      assert IsSlugChar(s[i]);
    }
  }

  lemma SlugKept(s: string)
    requires IsSlug(s)
    ensures Filter(s, Kept) == s
  {
    forall i | 0 <= i < |s| ensures Kept(s[i]) {
      assert IsSlugChar(s[i]);
    }
    FilterKeepsAll(s, Kept);
  }

  lemma SlugDashed(s: string)
    requires IsSlug(s)
    ensures ReplaceRuns(s, IsSpace, '-') == s
  {
    forall i | 0 <= i < |s| ensures !IsSpace(s[i]) {
      assert IsSlugChar(s[i]);
    }
    ReplaceRunsIdentity(s, IsSpace, '-');
  }

  lemma SlugCollapsed(s: string)
    requires IsSlug(s)
    ensures ReplaceRuns(s, IsDash, '-') == s
  {
    ReplaceRunsIdentity(s, IsDash, '-');
  }

  /** A well-formed slug goes through every step unchanged. */
  lemma SlugStepsKeepSlug(s: string)
    requires IsSlug(s)
    ensures GenerateSlug(s) == s
  {
    SlugLower(s);
    SlugKept(s);
    SlugDashed(s);
    SlugCollapsed(s);
    SlugTrim(s);
  }

  /** Slugging a slug changes nothing. */
  lemma GenerateSlugIdempotent(title: string)
    ensures GenerateSlug(GenerateSlug(title)) == GenerateSlug(title)
  {
    SlugStepsKeepSlug(GenerateSlug(title));
  }

  /** A slug is its own slug, so slugs are exactly the fixed points. */
  lemma SlugFixedPoints(s: string)
    ensures GenerateSlug(s) == s <==> IsSlug(s)
  {
    if IsSlug(s) {
      SlugStepsKeepSlug(s);
    }
  }

  lemma FilterFirst<T>(s: seq<T>, p: T -> bool)
    requires |s| > 0 && p(s[0])
    ensures |Filter(s, p)| > 0 && Filter(s, p)[0] == s[0]
  {
  }

  lemma FilterLast<T>(s: seq<T>, p: T -> bool)
    requires |s| > 0 && p(s[|s| - 1])
    ensures |Filter(s, p)| > 0 && Filter(s, p)[|Filter(s, p)| - 1] == s[|s| - 1]
  {
    var n := |s|;
    assert s == s[..n - 1] + [s[n - 1]];
    FilterAppend(s[..n - 1], [s[n - 1]], p);
    assert Filter([s[n - 1]], p) == [s[n - 1]];
  }

  /** A string ending in a replaced run ends in the replacement. */
  lemma {:induction false} ReplaceRunsLast(s: string, p: char -> bool, c: char)
    requires |s| > 0 && p(s[|s| - 1])
    ensures |ReplaceRuns(s, p, c)| > 0 && ReplaceRuns(s, p, c)[|ReplaceRuns(s, p, c)| - 1] == c
    decreases |s|
  {
    if p(s[0]) {
      var n := RunLength(s, p);
      if n < |s| {
        assert s[n..][|s[n..]| - 1] == s[|s| - 1];
        ReplaceRunsLast(s[n..], p, c);
      }
    } else {
      assert s[1..][|s[1..]| - 1] == s[|s| - 1];
      ReplaceRunsLast(s[1..], p, c);
    }
  }

  /** The final trim of `generateSlug` never removes anything. */
  lemma GenerateSlugUntrimmed(title: string)
    ensures GenerateSlug(title)
            == ReplaceRuns(ReplaceRuns(Filter(Lower(title), Kept), IsSpace, '-'), IsDash, '-')
  {
    SlugSteps(title);
  }

  /** White space at the start of the title becomes a dash at the start of
      the slug. */
  lemma GenerateSlugKeepsLeadingDash(title: string)
    requires |title| > 0 && IsSpace(title[0])
    ensures |GenerateSlug(title)| > 0 && GenerateSlug(title)[0] == '-'
  {
    var lowered := Lower(title);
    LowerKeepsSpaces(title);
    GenerateSlugUntrimmed(title);
    FilterFirst(lowered, Kept);
  }

  /** White space at the end of the title becomes a dash at the end of the
      slug. */
  lemma GenerateSlugKeepsTrailingDash(title: string)
    requires |title| > 0 && IsSpace(title[|title| - 1])
    ensures |GenerateSlug(title)| > 0 && GenerateSlug(title)[|GenerateSlug(title)| - 1] == '-'
  {
    CollapsedEndsInDash(title);
    TrimKeepsLast(ReplaceRuns(ReplaceRuns(Filter(Lower(title), Kept), IsSpace, '-'), IsDash, '-'));
  }

  /** A title ending in white space collapses to a string ending in a dash. */
  lemma CollapsedEndsInDash(title: string)
    requires |title| > 0 && IsSpace(title[|title| - 1])
    ensures var collapsed := ReplaceRuns(ReplaceRuns(Filter(Lower(title), Kept), IsSpace, '-'), IsDash, '-');
            |collapsed| > 0 && collapsed[|collapsed| - 1] == '-'
  {
    var dashed := ReplaceRuns(Filter(Lower(title), Kept), IsSpace, '-');
    DashedEndsInDash(title);
    ReplaceRunsLast(dashed, IsDash, '-');
  }

  /** Trailing white space survives the first replace and becomes a dash. */
  lemma DashedEndsInDash(title: string)
    requires |title| > 0 && IsSpace(title[|title| - 1])
    ensures var dashed := ReplaceRuns(Filter(Lower(title), Kept), IsSpace, '-');
            |dashed| > 0 && IsDash(dashed[|dashed| - 1])
  {
    var lowered := Lower(title);
    LowerKeepsSpaces(title);
    FilterLast(lowered, Kept);
    ReplaceRunsLast(Filter(lowered, Kept), IsSpace, '-');
  }

  /** The admin page's case-study slug: `title.toLowerCase()` with each
      white-space run replaced by one dash. Nothing else is removed. */
  function CaseStudySlug(title: string): (r: string)
    ensures forall i :: 0 <= i < |r| ==> !IsSpace(r[i]) && !('A' <= r[i] <= 'Z')
    ensures forall i :: 0 <= i < |r| && r[i] != '-' ==> r[i] in Lower(title)
    ensures forall i :: 0 <= i < |title| && !IsSpace(title[i]) ==> LowerChar(title[i]) in r
    ensures |r| <= |title|
    ensures Filter(r, NotDash) == Filter(Lower(title), InWord)
  {
    var lowered := Lower(title);
    var r := ReplaceRuns(lowered, IsSpace, '-');
    CaseStudyWordChars(lowered);
    NoCapitals(title);
    ReplaceRunsKeepsOthers(lowered, IsSpace, '-');
    r
  }

  /** Between the dashes, the case-study slug spells out the lowered
      title's characters other than white space and dashes. */
  lemma CaseStudyWordChars(lowered: string)
    ensures Filter(ReplaceRuns(lowered, IsSpace, '-'), NotDash) == Filter(lowered, InWord)
  {
    var r := ReplaceRuns(lowered, IsSpace, '-');
    ReplaceRunsKeepsUntouched(lowered, IsSpace, '-');
    FilterCongruent(r, NotDash, Untouched(IsSpace, '-'));
    FilterCongruent(lowered, InWord, Untouched(IsSpace, '-'));
  }

  lemma NoCapitals(title: string)
    ensures forall i :: 0 <= i < |ReplaceRuns(Lower(title), IsSpace, '-')| ==> !('A' <= ReplaceRuns(Lower(title), IsSpace, '-')[i] <= 'Z')
  {
    var lowered := Lower(title);
    var r := ReplaceRuns(lowered, IsSpace, '-');
    forall i | 0 <= i < |r| ensures !('A' <= r[i] <= 'Z') {
      if r[i] != '-' {
        var j :| 0 <= j < |lowered| && lowered[j] == r[i];
      }
    }
  }

  /** A title without white space only changes case. */
  lemma CaseStudySlugOfWord(word: string)
    requires forall i :: 0 <= i < |word| ==> !IsSpace(word[i])
    ensures CaseStudySlug(word) == Lower(word)
  {
    ReplaceRunsIdentity(Lower(word), IsSpace, '-');
  }

  /** Where the dashes fall: each white-space run between two parts of the
      title becomes exactly one dash, and each part is slugged on its own. */
  lemma CaseStudySlugJoinsParts(a: string, gap: string, b: string)
    requires |a| == 0 || !IsSpace(a[|a| - 1])
    requires |b| == 0 || !IsSpace(b[0])
    requires |gap| > 0 && forall i :: 0 <= i < |gap| ==> IsSpace(gap[i])
    ensures CaseStudySlug(a + gap + b) == CaseStudySlug(a) + "-" + CaseStudySlug(b)
  {
    var lg := Lower(gap);
    assert Lower(a + gap + b) == Lower(a) + lg + Lower(b) by {
      LowerAppend(a + gap, b);
      LowerAppend(a, gap);
    }
    ReplaceRunsAroundGap(Lower(a), lg, Lower(b), IsSpace, '-');
  }

  /** Every character outside the replaced runs is still there. */
  lemma {:induction false} ReplaceRunsKeepsOthers(s: string, p: char -> bool, c: char)
    ensures forall i :: 0 <= i < |s| && !p(s[i]) ==> s[i] in ReplaceRuns(s, p, c)
    decreases |s|
  {
    if |s| > 0 {
      if p(s[0]) {
        var n := RunLength(s, p);
        ReplaceRunsKeepsOthers(s[n..], p, c);
        forall i | 0 <= i < |s| && !p(s[i]) ensures s[i] in ReplaceRuns(s, p, c) {
          assert i >= n;
          assert s[i] == s[n..][i - n];
        }
      } else {
        ReplaceRunsKeepsOthers(s[1..], p, c);
        forall i | 0 <= i < |s| && !p(s[i]) ensures s[i] in ReplaceRuns(s, p, c) {
          if i > 0 {
            assert s[i] == s[1..][i - 1];
          }
        }
      }
    }
  }

  /** The case-study slug of its own output is that output. */
  lemma CaseStudySlugIdempotent(title: string)
    ensures CaseStudySlug(CaseStudySlug(title)) == CaseStudySlug(title)
  {
    var r := CaseStudySlug(title);
    assert Lower(r) == r;
    ReplaceRunsIdentity(r, IsSpace, '-');
  }

  /** Unlike `generateSlug`, the case-study slug keeps a character that is
      neither white space nor a slug character, such as punctuation, so the
      two rules give different slugs for such a title. */
  lemma CaseStudySlugKeepsPunctuation(title: string, i: nat)
    requires i < |title| && !IsSpace(title[i]) && !IsSlugChar(LowerChar(title[i]))
    ensures LowerChar(title[i]) in CaseStudySlug(title)
    ensures LowerChar(title[i]) !in GenerateSlug(title)
    ensures CaseStudySlug(title) != GenerateSlug(title)
  {
  }
}
