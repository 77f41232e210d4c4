/** The list and string utilities of the admin dashboard
    (client/src/utils/helpers.ts), apart from `generateSlug`, which lives in
    the `Slug` module. Clock readings are parameters in milliseconds. */
module Helpers {
  import opened Common
  import opened Text
  import opened Entities

  // ----- validateEmail -----

  predicate NoSpace(s: string) {
    forall i :: 0 <= i < |s| ==> !IsSpace(s[i])
  }

  /** A `.` with at least one character on each side. */
  predicate HasInnerDot(d: string) {
    |d| >= 3 && '.' in d[1..|d| - 1]
  }

  /** `validateEmail(email)`: split at `@` into exactly two pieces, a
      non-empty local part, no white space anywhere, and a dot inside the
      domain part. */
  function ValidateEmail(email: string): (r: bool)
    ensures r ==> NoSpace(email) && Occurrences(email, '@') == 1
  {
    var parts := Split(email, '@');
    SplitCount(email, '@');
    |parts| == 2 && |parts[0]| > 0 && NoSpace(email) && HasInnerDot(parts[1])
  }

  /** The pattern `^[^\s@]+@[^\s@]+\.[^\s@]+$` matched with the `@` at `p` and
      the separating dot at `q`: every character is outside `\s`, the only
      `@` is at `p`, and each of the three runs is non-empty. */
  predicate EmailMatchAt(s: string, p: int, q: int) {
    && 0 < p && p + 1 < q < |s| - 1
    && s[p] == '@' && s[q] == '.'
    && NoSpace(s)
    && (forall i :: 0 <= i < |s| && i != p ==> s[i] != '@')
  }

  lemma {:induction false} OccurrencesNone(s: string, c: char)
    requires forall i :: 0 <= i < |s| ==> s[i] != c
    ensures Occurrences(s, c) == 0
    decreases |s|
  {
    if |s| > 0 {
      OccurrencesNone(s[1..], c);
    }
  }

  lemma {:induction false} OccurrencesSole(s: string, c: char, p: nat)
    requires p < |s| && s[p] == c
    requires forall i :: 0 <= i < |s| && i != p ==> s[i] != c
    ensures Occurrences(s, c) == 1
    decreases |s|
  {
    if p == 0 {
      OccurrencesNone(s[1..], c);
    } else {
      OccurrencesSole(s[1..], c, p - 1);
    }
  }

  /** Two pieces of a split rebuild the string around the one separator. */
  lemma SplitInTwo(s: string, sep: char)
    requires |Split(s, sep)| == 2
    ensures s == Split(s, sep)[0] + [sep] + Split(s, sep)[1]
  {
    var parts := Split(s, sep);
    JoinSplit(s, sep);
    assert Join(parts[1..], sep) == parts[1];
  }

  lemma EmailValidImpliesMatch(s: string)
    requires ValidateEmail(s)
    ensures exists p, q :: EmailMatchAt(s, p, q)
  {
    var parts := Split(s, '@');
    SplitCount(s, '@');
    SplitInTwo(s, '@');
    var p := |parts[0]|;
    var d := parts[1];
    var k :| 0 <= k < |d[1..|d| - 1]| && d[1..|d| - 1][k] == '.';
    var q := p + 2 + k;
    assert s[q] == d[k + 1];
    forall i | 0 <= i < |s| && i != p ensures s[i] != '@' {
      if i < p {
        assert s[i] == parts[0][i];
      } else {
        assert s[i] == d[i - p - 1];
      }
    }
    assert EmailMatchAt(s, p, q);
  }

  lemma EmailMatchImpliesValid(s: string, p: int, q: int)
    requires EmailMatchAt(s, p, q)
    ensures ValidateEmail(s)
  {
    OccurrencesSole(s, '@', p);
    SplitCount(s, '@');
    var parts := Split(s, '@');
    SplitInTwo(s, '@');
    var n := |parts[0]|;
    assert s[n] == '@';
    assert n == p;
    var d := parts[1];
    assert d == s[p + 1..];
    assert d[1..|d| - 1][q - p - 2] == '.';
  }

  /** `validateEmail` accepts exactly the strings the pattern matches. */
  lemma ValidateEmailMatchesPattern(s: string)
    ensures ValidateEmail(s) <==> exists p, q :: EmailMatchAt(s, p, q)
  {
    if ValidateEmail(s) {
      EmailValidImpliesMatch(s);
    }
    if exists p, q :: EmailMatchAt(s, p, q) {
      var p, q :| EmailMatchAt(s, p, q);
      EmailMatchImpliesValid(s, p, q);
    }
  }

  // ----- reorderItems -----

  /** Where `splice(to, 0, x)` inserts into a list of length `len`: a
      negative position counts from the end, and both ends are clamped. */
  function SpliceIndex(len: nat, to: int): (k: nat)
    ensures k <= len
    ensures 0 <= to <= len ==> k == to
  {
    if to < 0 then (if len + to < 0 then 0 else len + to)
    else if to > len then len
    else to
  }

  /** The list without its element at `i`. */
  function RemoveAt<T>(s: seq<T>, i: nat): (r: seq<T>)
    requires i < |s|
    ensures |r| == |s| - 1
    ensures multiset(r) + multiset{s[i]} == multiset(s)
  {
    assert s == s[..i] + [s[i]] + s[i + 1..];
    s[..i] + s[i + 1..]
  }

  /** The list with `x` inserted before position `k`. */
  function InsertAt<T>(s: seq<T>, k: nat, x: T): (r: seq<T>)
    requires k <= |s|
    ensures |r| == |s| + 1 && r[k] == x
    ensures multiset(r) == multiset(s) + multiset{x}
  {
    assert s == s[..k] + s[k..];
    s[..k] + [x] + s[k..]
  }

  /** Taking out what was just inserted gives back the list. */
  lemma RemoveInsert<T>(s: seq<T>, k: nat, x: T)
    requires k <= |s|
    ensures RemoveAt(InsertAt(s, k, x), k) == s
  {
    var r := InsertAt(s, k, x);
    assert r[..k] == s[..k];
    assert r[k + 1..] == s[k..];
  }

  /** Putting back what was just taken out gives back the list. */
  lemma InsertRemove<T>(s: seq<T>, i: nat)
    requires i < |s|
    ensures InsertAt(RemoveAt(s, i), i, s[i]) == s
  {
    var r := RemoveAt(s, i);
    assert r[..i] == s[..i];
    assert r[i..] == s[i + 1..];
  }

  /** The two `splice` calls of `reorderItems`: take the element at `from`
      out, then insert it at `to` in what is left. */
  function Move<T>(items: seq<T>, from: nat, to: int): (r: seq<T>)
    requires from < |items|
    ensures |r| == |items|
    ensures r[SpliceIndex(|items| - 1, to)] == items[from]
    ensures multiset(r) == multiset(items)
    ensures RemoveAt(r, SpliceIndex(|items| - 1, to)) == RemoveAt(items, from)
  {
    var rest := RemoveAt(items, from);
    var k := SpliceIndex(|rest|, to);
    var r := InsertAt(rest, k, items[from]);
    RemoveInsert(rest, k, items[from]);
    assert multiset(r) == multiset(items) by {
      assert multiset(r) == multiset(rest) + multiset{items[from]};
    }
    r
  }

  /** Moving the element back to where it came from restores the list. */
  lemma MoveBack<T>(items: seq<T>, from: nat, to: int)
    requires from < |items|
    ensures Move(Move(items, from, to), SpliceIndex(|items| - 1, to), from) == items
  {
    var k := SpliceIndex(|items| - 1, to);
    var m := Move(items, from, to);
    var rest := RemoveAt(items, from);
    assert Move(m, k, from) == InsertAt(RemoveAt(m, k), SpliceIndex(|m| - 1, from), m[k]);
    assert SpliceIndex(|m| - 1, from) == from;
    InsertRemove(items, from);
  }

  /** `reorderItems(posts, from, to)`. When the start of `splice(from, 1)`
      lies inside the list, the element there moves to the normalised target
      and every record's `orderIndex` becomes its position. Otherwise the
      first `splice` removes nothing, `removed` is `undefined`, the second
      `splice` inserts that, and spreading `undefined` leaves a record that
      holds nothing but its `orderIndex`: `None` stands for that record. */
  function ReorderPosts(posts: seq<BlogPost>, from: int, to: int): (r: seq<Option<BlogPost>>)
    ensures var s := SpliceIndex(|posts|, from); s < |posts| ==>
              && |r| == |posts|
              && (forall i :: 0 <= i < |r| ==> r[i].Some? && r[i].value.orderIndex == Some(i))
              && (forall i :: 0 <= i < |r| ==> r[i].value.(orderIndex := Move(posts, s, to)[i].orderIndex) == Move(posts, s, to)[i])
              && var k := SpliceIndex(|posts| - 1, to); r[k] == Some(posts[s].(orderIndex := Some(k)))
    ensures SpliceIndex(|posts|, from) == |posts| ==>
              var k := SpliceIndex(|posts|, to);
              && |r| == |posts| + 1
              && r[k].None?
              && (forall i :: 0 <= i < k ==> r[i] == Some(posts[i].(orderIndex := Some(i))))
              && (forall i :: k < i < |r| ==> r[i] == Some(posts[i - 1].(orderIndex := Some(i))))
  {
    var s := SpliceIndex(|posts|, from);
    if s < |posts| then MovedSlots(posts, s, to)
    else SlotsWithBare(posts, SpliceIndex(|posts|, to))
  }

  /** The in-range half of `ReorderPosts`: the moved list, renumbered. */
  function MovedSlots(posts: seq<BlogPost>, s: nat, to: int): (r: seq<Option<BlogPost>>)
    requires s < |posts|
    ensures |r| == |posts|
    ensures forall i :: 0 <= i < |r| ==> r[i].Some? && r[i].value.orderIndex == Some(i)
    ensures forall i :: 0 <= i < |r| ==> r[i].value.(orderIndex := Move(posts, s, to)[i].orderIndex) == Move(posts, s, to)[i]
    ensures var k := SpliceIndex(|posts| - 1, to); r[k] == Some(posts[s].(orderIndex := Some(k)))
  {
    var m := Move(posts, s, to);
    seq(|m|, i requires 0 <= i < |m| => Some(m[i].(orderIndex := Some(i))))
  }

  /** The out-of-range half of `ReorderPosts`: the bare record inserted at
      `k`, every post renumbered. */
  function SlotsWithBare(posts: seq<BlogPost>, k: nat): (r: seq<Option<BlogPost>>)
    requires k <= |posts|
    ensures |r| == |posts| + 1
    ensures r[k].None?
    ensures forall i :: 0 <= i < k ==> r[i] == Some(posts[i].(orderIndex := Some(i)))
    ensures forall i :: k < i < |r| ==> r[i] == Some(posts[i - 1].(orderIndex := Some(i)))
  {
    var slots := InsertAt(seq(|posts|, i requires 0 <= i < |posts| => Some(posts[i])), k, None);
    seq(|slots|, i requires 0 <= i < |slots| =>
      if slots[i].Some? then Some(slots[i].value.(orderIndex := Some(i))) else None)
  }

  /** `f` applied to every element. */
  function MapSeq<T, U>(s: seq<T>, f: T -> U): (r: seq<U>)
    ensures |r| == |s| && forall i :: 0 <= i < |s| ==> r[i] == f(s[i])
  {
    seq(|s|, i requires 0 <= i < |s| => f(s[i]))
  }

  /** A post with its position forgotten. */
  function Unpositioned(p: BlogPost): Option<BlogPost> {
    Some(p.(orderIndex := None))
  }

  /** A slot of the reordered list with its position forgotten. */
  function UnpositionedSlot(slot: Option<BlogPost>): Option<BlogPost> {
    if slot.Some? then Unpositioned(slot.value) else None
  }

  /** Apart from the positions, reordering holds the same posts as before,
      as many times each, plus the bare record when nothing was removed. */
  lemma ReorderKeepsPosts(posts: seq<BlogPost>, from: int, to: int)
    ensures var r := MapSeq(ReorderPosts(posts, from, to), UnpositionedSlot);
            var before := multiset(MapSeq(posts, Unpositioned));
            if SpliceIndex(|posts|, from) < |posts| then multiset(r) == before
            else multiset(r) == before + multiset{None}
  {
    var s := SpliceIndex(|posts|, from);
    if s < |posts| {
      var m := Move(posts, s, to);
      ReorderedInRange(posts, from, to);
      MapPreservesPermutation(m, posts, Unpositioned);
    } else {
      ReorderedOutOfRange(posts, from, to);
    }
  }

  /** With its positions forgotten, an in-range reorder is the bare move. */
  lemma ReorderedInRange(posts: seq<BlogPost>, from: int, to: int)
    requires SpliceIndex(|posts|, from) < |posts|
    ensures MapSeq(ReorderPosts(posts, from, to), UnpositionedSlot)
         == MapSeq(Move(posts, SpliceIndex(|posts|, from), to), Unpositioned)
  {
    var m := Move(posts, SpliceIndex(|posts|, from), to);
    var l := MapSeq(ReorderPosts(posts, from, to), UnpositionedSlot);
    var u := MapSeq(m, Unpositioned);
    forall i | 0 <= i < |l| ensures l[i] == u[i] {
    }
  }

  /** With its positions forgotten, an out-of-range reorder is the old list
      with the bare record inserted at the normalised target. */
  lemma ReorderedOutOfRange(posts: seq<BlogPost>, from: int, to: int)
    requires SpliceIndex(|posts|, from) == |posts|
    ensures MapSeq(ReorderPosts(posts, from, to), UnpositionedSlot)
         == InsertAt(MapSeq(posts, Unpositioned), SpliceIndex(|posts|, to), None)
  {
    var k := SpliceIndex(|posts|, to);
    var slots := SlotsWithBare(posts, k);
    assert ReorderPosts(posts, from, to) == slots;
    var l := MapSeq(slots, UnpositionedSlot);
    var unp := MapSeq(posts, Unpositioned);
    var u := InsertAt(unp, k, None);
    forall i | 0 <= i < |l| ensures l[i] == u[i] {
      if i < k {
        assert u[i] == unp[i];
      } else if i > k {
        assert u[i] == unp[i - 1];
      }
    }
  }

  /** Taking one element out of a list takes one occurrence out of its
      multiset. */
  lemma MultisetRemove<T>(s: seq<T>, j: nat)
    requires j < |s|
    ensures multiset(s[..j] + s[j + 1..]) == multiset(s) - multiset{s[j]}
  {
    assert s == s[..j] + [s[j]] + s[j + 1..];
  }

  /** Where the first element of `a` sits in a permutation `b` of it, and
      what the two lists are without it. */
  lemma PermutationHead<T>(a: seq<T>, b: seq<T>) returns (j: nat)
    requires |a| > 0 && multiset(a) == multiset(b)
    ensures j < |b| && b[j] == a[0]
    ensures multiset(a[1..]) == multiset(b[..j] + b[j + 1..])
  {
    assert a[0] in multiset(b);
    j :| 0 <= j < |b| && b[j] == a[0];
    assert a[..0] + a[1..] == a[1..];
    MultisetRemove(a, 0);
    MultisetRemove(b, j);
  }

  /** Mapping a list with one element taken out. */
  lemma MapSeqRemoveCount<T, U>(s: seq<T>, j: nat, f: T -> U)
    requires j < |s|
    ensures multiset(MapSeq(s, f)) == multiset(MapSeq(s[..j] + s[j + 1..], f)) + multiset{f(s[j])}
  {
    var fs := MapSeq(s, f);
    assert MapSeq(s[..j] + s[j + 1..], f) == fs[..j] + fs[j + 1..];
    MultisetRemove(fs, j);
    assert fs[j] == f(s[j]);
  }

  /** Mapping a list with its first element in front. */
  lemma MapSeqHeadCount<T, U>(s: seq<T>, f: T -> U)
    requires |s| > 0
    ensures multiset(MapSeq(s, f)) == multiset{f(s[0])} + multiset(MapSeq(s[1..], f))
  {
    assert MapSeq(s, f) == [f(s[0])] + MapSeq(s[1..], f);
  }

  /** Mapping two lists that are permutations of each other gives
      permutations of each other. */
  lemma {:induction false} MapPreservesPermutation<T, U>(a: seq<T>, b: seq<T>, f: T -> U)
    requires multiset(a) == multiset(b)
    ensures multiset(MapSeq(a, f)) == multiset(MapSeq(b, f))
    decreases |a|
  {
    if |a| > 0 {
      var j := PermutationHead(a, b);
      var b' := b[..j] + b[j + 1..];
      MapPreservesPermutation(a[1..], b', f);
      MapSeqHeadCount(a, f);
      MapSeqRemoveCount(b, j, f);
    }
  }

  // ----- filterByTags -----

  /** The record carries a tag list with at least one of `tags`. */
  predicate SharesTag<T>(tagsOf: T -> Option<seq<string>>, tags: seq<string>, item: T) {
    tagsOf(item).Some? && exists j :: 0 <= j < |tagsOf(item).value| && tagsOf(item).value[j] in tags
  }

  /** `filterByTags(items, tags)`: everything for an empty tag list,
      otherwise the records sharing a tag, in order. */
  function FilterByTags<T>(items: seq<T>, tags: seq<string>, tagsOf: T -> Option<seq<string>>): (r: seq<T>)
    ensures |tags| == 0 ==> r == items
    ensures IsSubseq(r, items)
    ensures |tags| > 0 ==> forall i :: 0 <= i < |r| ==> SharesTag(tagsOf, tags, r[i])
    ensures |tags| > 0 ==> forall i :: 0 <= i < |items| && SharesTag(tagsOf, tags, items[i]) ==> items[i] in r
    ensures multiset(r) <= multiset(items)
    ensures forall i :: 0 <= i < |items| && (|tags| == 0 || SharesTag(tagsOf, tags, items[i])) ==>
              multiset(r)[items[i]] == multiset(items)[items[i]]
  {
    if |tags| == 0 then
      assert IsSubseq(items, items) by { IsSubseqRefl(items); }
      items
    else
      FilterCounts(items, (x: T) => SharesTag(tagsOf, tags, x));
      Filter(items, (x: T) => SharesTag(tagsOf, tags, x))
  }

  lemma {:induction false} IsSubseqRefl<T>(s: seq<T>)
    ensures IsSubseq(s, s)
    decreases |s|
  {
    if |s| > 0 {
      IsSubseqRefl(s[1..]);
    }
  }

  /** Filtering by the same tags again changes nothing. */
  lemma FilterByTagsIdempotent<T>(items: seq<T>, tags: seq<string>, tagsOf: T -> Option<seq<string>>)
    ensures FilterByTags(FilterByTags(items, tags, tagsOf), tags, tagsOf) == FilterByTags(items, tags, tagsOf)
  {
    if |tags| > 0 {
      FilterIdempotent(items, (x: T) => SharesTag(tagsOf, tags, x));
    }
  }

  // ----- calculateStats -----

  datatype Stats = Stats(total: nat, published: nat, favorites: nat, totalViews: int, totalLikes: int)

  predicate IsPublished(p: BlogPost) { p.published }

  /** `i.favorite` is truthy. */
  predicate IsFavorite(p: BlogPost) { p.favorite == Some(true) }

  /** `i.views || 0` and `i.likes || 0`. */
  function ViewsOrZero(p: BlogPost): int { p.views.GetOr(0) }
  function LikesOrZero(p: BlogPost): int { p.likes.GetOr(0) }

  /** The sum of `f` over the list. */
  function SumOf(s: seq<BlogPost>, f: BlogPost -> int): int
    decreases |s|
  {
    if |s| == 0 then 0 else SumOf(s[..|s| - 1], f) + f(s[|s| - 1])
  }

  /** The statistics, defined element-wise: counts of the published and
      favourite posts and sums of views and likes with a missing value
      counted as zero. */
  function StatsOf(items: seq<BlogPost>): Stats {
    Stats(|items|, CountWhere(items, IsPublished), CountWhere(items, IsFavorite),
          SumOf(items, ViewsOrZero), SumOf(items, LikesOrZero))
  }

  lemma CountStep(items: seq<BlogPost>, i: nat, p: BlogPost -> bool)
    requires i < |items|
    ensures CountWhere(items[..i + 1], p) == CountWhere(items[..i], p) + (if p(items[i]) then 1 else 0)
  {
    assert items[..i + 1] == items[..i] + [items[i]];
    FilterAppend(items[..i], [items[i]], p);
  }

  /** `calculateStats(items)`, one pass over the list. */
  method CalculateStats(items: seq<BlogPost>) returns (st: Stats)
    ensures st == StatsOf(items)
    ensures st.total == |items|
    ensures st.published <= st.total && st.favorites <= st.total
  {
    var published, favorites, views, likes := 0, 0, 0, 0;
    var i := 0;
    while i < |items|
      invariant 0 <= i <= |items|
      invariant published == CountWhere(items[..i], IsPublished)
      invariant favorites == CountWhere(items[..i], IsFavorite)
      invariant views == SumOf(items[..i], ViewsOrZero)
      invariant likes == SumOf(items[..i], LikesOrZero)
    {
      CountStep(items, i, IsPublished);
      CountStep(items, i, IsFavorite);
      assert items[..i + 1][..i] == items[..i];
      if items[i].published { published := published + 1; }
      if items[i].favorite == Some(true) { favorites := favorites + 1; }
      views := views + ViewsOrZero(items[i]);
      likes := likes + LikesOrZero(items[i]);
      i := i + 1;
    }
    assert items[..i] == items;
    st := Stats(|items|, published, favorites, views, likes);
  }

  /** Statistics of two lists together are the sums of their statistics. */
  lemma {:induction false} SumAppend(a: seq<BlogPost>, b: seq<BlogPost>, f: BlogPost -> int)
    ensures SumOf(a + b, f) == SumOf(a, f) + SumOf(b, f)
    decreases |b|
  {
    if |b| == 0 {
      assert a + b == a;
    } else {
      SumAppend(a, b[..|b| - 1], f);
      assert (a + b)[..|a + b| - 1] == a + b[..|b| - 1];
    }
  }

  lemma StatsAdditive(a: seq<BlogPost>, b: seq<BlogPost>)
    ensures StatsOf(a + b).total == StatsOf(a).total + StatsOf(b).total
    ensures StatsOf(a + b).published == StatsOf(a).published + StatsOf(b).published
    ensures StatsOf(a + b).favorites == StatsOf(a).favorites + StatsOf(b).favorites
    ensures StatsOf(a + b).totalViews == StatsOf(a).totalViews + StatsOf(b).totalViews
    ensures StatsOf(a + b).totalLikes == StatsOf(a).totalLikes + StatsOf(b).totalLikes
  {
    FilterAppend(a, b, IsPublished);
    FilterAppend(a, b, IsFavorite);
    SumAppend(a, b, ViewsOrZero);
    SumAppend(a, b, LikesOrZero);
  }

  // ----- duplicateItem -----

  /** `duplicateItem(post)` at clock value `now`: the id becomes
      `<id>-copy-<now>`, the title gets ` (Copy)` appended, and every other
      field is kept. */
  function DuplicatePost(p: BlogPost, now: nat): (r: BlogPost)
    ensures r.(id := p.id, title := p.title) == p
    ensures |r.id| > |p.id| + 6 && r.id[..|p.id|] == p.id
    ensures r.id[|p.id|..|p.id| + 6] == "-copy-"
    ensures forall i :: |p.id| + 6 <= i < |r.id| ==> '0' <= r.id[i] <= '9'
    ensures ParseDecimal(r.id[|p.id| + 6..]) == now
    ensures |r.title| == |p.title| + 7 && r.title[..|p.title|] == p.title && r.title[|p.title|..] == " (Copy)"
  {
    DecimalRoundTrip(now);
    p.(id := p.id + "-copy-" + DecimalString(now), title := p.title + " (Copy)")
  }

  /** A copy never has the original's id, and copies made at different
      clock values have different ids. */
  lemma DuplicateIdsDistinct(p: BlogPost, t1: nat, t2: nat)
    ensures DuplicatePost(p, t1).id != p.id
    ensures t1 != t2 ==> DuplicatePost(p, t1).id != DuplicatePost(p, t2).id
  {
  }

  // ----- calculateReadingTime -----

  const WordsPerMinute: nat := 200

  /** `content.trim().split(/\s+/).length`. Collapsing every white-space run
      into one space and splitting on that space yields the same pieces. */
  function WordCount(content: string): (n: nat)
    ensures n >= 1
  {
    |Split(ReplaceRuns(Trim(content), IsSpace, ' '), ' ')|
  }

  /** Words on either side of a white-space gap add up. */
  lemma WordCountAdds(a: string, gap: string, b: string)
    requires |a| > 0 && !IsSpace(a[0]) && !IsSpace(a[|a| - 1])
    requires |b| > 0 && !IsSpace(b[0]) && !IsSpace(b[|b| - 1])
    requires |gap| > 0 && forall i :: 0 <= i < |gap| ==> IsSpace(gap[i])
    ensures WordCount(a + gap + b) == WordCount(a) + WordCount(b)
  {
    var s := a + gap + b;
    assert s[0] == a[0] && s[|s| - 1] == b[|b| - 1];
    TrimSolid(s);
    TrimSolid(a);
    TrimSolid(b);
    var ra, rb := ReplaceRuns(a, IsSpace, ' '), ReplaceRuns(b, IsSpace, ' ');
    ReplaceRunsAroundGap(a, gap, b, IsSpace, ' ');
    assert Occurrences(ra + [' '] + rb, ' ') == Occurrences(ra, ' ') + 1 + Occurrences(rb, ' ') by {
      OccurrencesAppend(ra + [' '], rb, ' ');
      OccurrencesAppend(ra, [' '], ' ');
    }
    SplitCount(ra + [' '] + rb, ' ');
    SplitCount(ra, ' ');
    SplitCount(rb, ' ');
  }

  /** White space before and after a text adds no word. */
  lemma WordCountIgnoresPadding(front: string, s: string, back: string)
    requires |s| > 0 && !IsSpace(s[0]) && !IsSpace(s[|s| - 1])
    requires forall i :: 0 <= i < |front| ==> IsSpace(front[i])
    requires forall i :: 0 <= i < |back| ==> IsSpace(back[i])
    ensures WordCount(front + s + back) == WordCount(s)
  {
    TrimPadding(front, s, back);
    TrimSolid(s);
  }

  /** Non-empty words without white space, joined by single spaces, count
      as many words as there are. */
  lemma {:induction false} WordCountOfWords(words: seq<string>)
    requires |words| >= 1
    requires forall i :: 0 <= i < |words| ==> |words[i]| > 0 && NoSpace(words[i])
    ensures WordCount(Join(words, ' ')) == |words|
    decreases |words|
  {
    if |words| == 1 {
      BlankContentOneMinute(words[0]);
    } else {
      var rest := Join(words[1..], ' ');
      JoinEnds(words[1..]);
      WordCountOfWords(words[1..]);
      BlankContentOneMinute(words[0]);
      WordCountAdds(words[0], " ", rest);
    }
  }

  /** Words without white space, joined by spaces, begin with the first
      word's first character and end with the last word's last one. */
  lemma {:induction false} JoinEnds(words: seq<string>)
    requires |words| >= 1
    requires forall i :: 0 <= i < |words| ==> |words[i]| > 0 && NoSpace(words[i])
    ensures var j := Join(words, ' ');
            |j| > 0 && !IsSpace(j[0]) && !IsSpace(j[|j| - 1])
    decreases |words|
  {
    if |words| > 1 {
      JoinEnds(words[1..]);
    }
  }

  function Max(a: int, b: int): int {
    if a < b then b else a
  }

  /** `calculateReadingTime(content)`: minutes at 200 words a minute,
      rounded up, at least one. */
  function ReadingTime(content: string): (m: nat)
    ensures m >= 1
    ensures (m - 1) * WordsPerMinute < WordCount(content) <= m * WordsPerMinute
  {
    Max(1, (WordCount(content) + WordsPerMinute - 1) / WordsPerMinute)
  }

  /** Blank content still counts as one word, so it reads in one minute. */
  lemma BlankContentOneMinute(content: string)
    requires NoSpace(content) || forall i :: 0 <= i < |content| ==> IsSpace(content[i])
    ensures WordCount(content) == 1
    ensures ReadingTime(content) == 1
  {
    if NoSpace(content) {
      NoSpaceCollapses(content);
      SingleWord(content);
    } else {
      BlankCollapses(content);
      SingleWord("");
    }
  }

  lemma NoSpaceCollapses(content: string)
    requires NoSpace(content)
    ensures ReplaceRuns(Trim(content), IsSpace, ' ') == content
  {
    TrimNoSpace(content);
    ReplaceRunsIdentity(content, IsSpace, ' ');
  }

  lemma BlankCollapses(content: string)
    requires forall i :: 0 <= i < |content| ==> IsSpace(content[i])
    ensures ReplaceRuns(Trim(content), IsSpace, ' ') == ""
  {
    assert |Trim(content)| == 0;
  }

  /** Text holding no space splits into one piece. */
  lemma SingleWord(s: string)
    requires forall i :: 0 <= i < |s| ==> s[i] != ' '
    ensures |Split(s, ' ')| == 1
  {
    OccurrencesNone(s, ' ');
    SplitCount(s, ' ');
  }

  // ----- getScheduledPublishTime / isScheduledForLater -----

  /** What the countdown shows. */
  datatype Countdown =
    | NotScheduled
    | Ready
    | DaysHours(days: nat, hours: nat)
    | HoursMinutes(hours: nat, minutes: nat)
    | MinutesOnly(minutes: nat)

  /** `Math.max(0, Math.floor((scheduled - now) / 1000))`; for a positive
      divisor Dafny's division is the floor. */
  function SecondsLeft(scheduled: int, now: int): nat {
    var d := (scheduled - now) / 1000;
    if d < 0 then 0 else d
  }

  /** `!scheduledAt` holds for a missing value and for the time 0. */
  predicate IsSet(scheduledAt: Option<int>) {
    scheduledAt.Some? && scheduledAt.value != 0
  }

  /** The countdown for a publication time: whole days and hours when a day
      or more is left, else hours and minutes when an hour or more is left,
      else minutes. */
  function CountdownOf(scheduledAt: Option<int>, now: int): (c: Countdown)
    ensures c.NotScheduled? <==> !IsSet(scheduledAt)
    ensures c.Ready? <==> IsSet(scheduledAt) && scheduledAt.value - now < 1000
    ensures c.DaysHours? ==> var s := SecondsLeft(scheduledAt.value, now);
              c.days >= 1 && c.hours < 24
              && c.days * 86400 + c.hours * 3600 <= s < c.days * 86400 + (c.hours + 1) * 3600
    ensures c.HoursMinutes? ==> var s := SecondsLeft(scheduledAt.value, now);
              1 <= c.hours < 24 && c.minutes < 60
              && c.hours * 3600 + c.minutes * 60 <= s < c.hours * 3600 + (c.minutes + 1) * 60
    ensures c.MinutesOnly? ==> var s := SecondsLeft(scheduledAt.value, now);
              c.minutes < 60 && 1 <= s && c.minutes * 60 <= s < (c.minutes + 1) * 60
  {
    if !IsSet(scheduledAt) then NotScheduled
    else
      var diff := SecondsLeft(scheduledAt.value, now);
      if diff == 0 then Ready
      else
        var days := diff / 86400;
        var hours := (diff % 86400) / 3600;
        var minutes := (diff % 3600) / 60;
        DaysHoursBounds(diff);
        if days > 0 then DaysHours(days, hours)
        else if hours > 0 then
          HoursMinutesBounds(diff);
          HoursMinutes(hours, minutes)
        else
          HoursMinutesBounds(diff);
          MinutesOnly(minutes)
  }

  /** Whole days and the hours of the day left over bracket the seconds. */
  lemma DaysHoursBounds(s: nat)
    ensures var d, h := s / 86400, (s % 86400) / 3600;
            h < 24 && d * 86400 + h * 3600 <= s < d * 86400 + (h + 1) * 3600
  {
  }

  /** Under a day, whole hours and the minutes left over bracket the
      seconds. */
  lemma HoursMinutesBounds(s: nat)
    requires s < 86400
    ensures var h, m := (s % 86400) / 3600, (s % 3600) / 60;
            h < 24 && m < 60 && h * 3600 + m * 60 <= s < h * 3600 + (m + 1) * 60
  {
  }

  /** The text of a countdown. */
  function Render(c: Countdown): string {
    match c
    case NotScheduled => ""
    case Ready => "Ready to publish"
    case DaysHours(d, h) => DecimalString(d) + "d " + DecimalString(h) + "h"
    case HoursMinutes(h, m) => DecimalString(h) + "h " + DecimalString(m) + "m"
    case MinutesOnly(m) => DecimalString(m) + "m"
  }

  /** `getScheduledPublishTime(scheduledAt)` at clock value `now`. */
  function ScheduledPublishTime(scheduledAt: Option<int>, now: int): (r: string)
    ensures r == "" <==> !IsSet(scheduledAt)
    ensures r == "Ready to publish" <==> IsSet(scheduledAt) && scheduledAt.value - now < 1000
  {
    var c := CountdownOf(scheduledAt, now);
    var r := Render(c);
    assert c.DaysHours? || c.HoursMinutes? || c.MinutesOnly? ==> r != "" && r != "Ready to publish" by {
      if c.DaysHours? || c.HoursMinutes? || c.MinutesOnly? {
        assert '0' <= r[0] <= '9';
      }
    }
    r
  }

  /** `isScheduledForLater(scheduledAt)` at clock value `now`: a post that
      is scheduled for later always has a countdown, and a scheduled post
      that is not (any more) reads as ready. */
  function IsScheduledForLater(scheduledAt: Option<int>, now: int): (later: bool)
    ensures later ==> !CountdownOf(scheduledAt, now).NotScheduled?
    ensures IsSet(scheduledAt) && !later ==> CountdownOf(scheduledAt, now).Ready?
  {
    IsSet(scheduledAt) && scheduledAt.value > now
  }

  /** The flag and the countdown agree, except within the last second,
      where a post still scheduled for later already reads "Ready to
      publish". */
  lemma ScheduledAgreesWithCountdown(scheduledAt: Option<int>, now: int)
    ensures IsSet(scheduledAt) && !IsScheduledForLater(scheduledAt, now) ==> CountdownOf(scheduledAt, now).Ready?
    ensures IsScheduledForLater(scheduledAt, now) && scheduledAt.value - now >= 1000 ==>
              !CountdownOf(scheduledAt, now).Ready? && !CountdownOf(scheduledAt, now).NotScheduled?
    ensures IsScheduledForLater(scheduledAt, now) && scheduledAt.value - now < 1000 ==>
              ScheduledPublishTime(scheduledAt, now) == "Ready to publish"
  {
  }

  /** Under a minute but more than a second away, the countdown reads `0m`. */
  lemma UnderAMinuteReadsZeroMinutes(scheduled: int, now: int)
    requires scheduled != 0 && 1000 <= scheduled - now < 60000
    ensures CountdownOf(Some(scheduled), now) == MinutesOnly(0)
    ensures ScheduledPublishTime(Some(scheduled), now) == "0m"
  {
    assert DecimalString(0) == "0";
  }
}
