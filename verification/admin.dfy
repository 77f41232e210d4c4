/** The admin dashboard's handlers (client/src/pages/Admin.tsx): the unread
    count shown on the contacts tab, the records the creation forms build,
    and the publish and feature toggles. Each handler goes through the
    storage hooks. A handler that reads the clock twice, `Date.now()` for the
    id and `new Date()` for the creation time, takes both readings; the
    course form reads it once. */
module Admin {
  import opened Common
  import opened Entities
  import opened LocalStorage
  import Slug

  // ----- the contacts tab -----

  predicate IsUnread(c: Contact) {
    !c.isRead
  }

  /** `contacts.filter(c => !c.isRead).length`, the count on the contacts tab. */
  function UnreadCount(contacts: seq<Contact>): (n: nat)
    ensures n <= |contacts|
    ensures n == 0 <==> forall i :: 0 <= i < |contacts| ==> contacts[i].isRead
    ensures n == |PositionsWhere(contacts, IsUnread, |contacts|)|
  {
    assert contacts[..|contacts|] == contacts;
    CountWhereIndices(contacts, IsUnread, |contacts|);
    if forall i :: 0 <= i < |contacts| ==> contacts[i].isRead then
      FilterKeepsNone(contacts, IsUnread);
      CountWhere(contacts, IsUnread)
    else
      var i :| 0 <= i < |contacts| && !contacts[i].isRead;
      assert contacts[i] in Filter(contacts, IsUnread);
      CountWhere(contacts, IsUnread)
  }

  /** The unread contacts carrying `id`. */
  function UnreadWithId(contacts: seq<Contact>, id: string): nat {
    CountWhere(contacts, (c: Contact) => !c.isRead && c.id == id)
  }

  /** What `markRead` does to one contact. */
  lemma MarkReadAt(contacts: seq<Contact>, id: string, i: nat)
    requires i < |contacts|
    ensures MarkReadList(contacts, id)[i] == contacts[i].(isRead := contacts[i].isRead || contacts[i].id == id)
  {
    var r := MarkReadList(contacts, id);
    assert r[i].(isRead := contacts[i].isRead) == contacts[i];
  }

  /** Opening a message lowers the unread count by the number of unread
      contacts with that id, and by nothing else. */
  lemma {:induction false} MarkReadLowersUnread(contacts: seq<Contact>, id: string)
    ensures UnreadCount(MarkReadList(contacts, id)) + UnreadWithId(contacts, id) == UnreadCount(contacts)
    decreases |contacts|
  {
    if |contacts| > 0 {
      var m := MarkReadList(contacts, id);
      var tail := MarkReadList(contacts[1..], id);
      assert m[1..] == tail by {
        forall j | 0 <= j < |tail| ensures m[1..][j] == tail[j] {
          MarkReadAt(contacts, id, j + 1);
          MarkReadAt(contacts[1..], id, j);
        }
      }
      MarkReadAt(contacts, id, 0);
      MarkReadLowersUnread(contacts[1..], id);
    }
  }

  /** Where `id` belongs to exactly the contact at `i`, no other contact
      counts among the unread ones with that id. */
  lemma OnlyOneWithId(contacts: seq<Contact>, i: nat)
    requires i < |contacts|
    requires forall j :: 0 <= j < |contacts| && j != i ==> contacts[j].id != contacts[i].id
    ensures UnreadWithId(contacts, contacts[i].id) == if contacts[i].isRead then 0 else 1
  {
    var id := contacts[i].id;
    var p := (c: Contact) => !c.isRead && c.id == id;
    assert contacts == contacts[..i] + [contacts[i]] + contacts[i + 1..];
    FilterAppend(contacts[..i] + [contacts[i]], contacts[i + 1..], p);
    FilterAppend(contacts[..i], [contacts[i]], p);
    FilterKeepsNone(contacts[..i], p);
    FilterKeepsNone(contacts[i + 1..], p);
  }

  /** Opening one unread message whose id is unique lowers the count by
      one; opening a message already read leaves it as it was. */
  lemma OpenOneMessage(contacts: seq<Contact>, i: nat)
    requires i < |contacts|
    requires forall j :: 0 <= j < |contacts| && j != i ==> contacts[j].id != contacts[i].id
    ensures !contacts[i].isRead ==> UnreadCount(MarkReadList(contacts, contacts[i].id)) == UnreadCount(contacts) - 1
    ensures contacts[i].isRead ==> UnreadCount(MarkReadList(contacts, contacts[i].id)) == UnreadCount(contacts)
  {
    MarkReadLowersUnread(contacts, contacts[i].id);
    OnlyOneWithId(contacts, i);
  }

  // ----- creation forms -----

  /** What the blog post form submits. */
  datatype PostForm = PostForm(title: string, excerpt: string, content: string, category: string)

  /** `handleCreatePost`: a post whose id is the first clock reading and
      whose creation time is the second, not yet published, appended through
      `addPost` (which keeps the id, as it is not empty). */
  function CreatePost(posts: seq<BlogPost>, stored: Stored, form: PostForm, t: ClockReadings): (o: Outcome<BlogPost>)
    ensures |o.items| == |posts| + 1 && o.items[..|posts|] == posts
    ensures var p := o.items[|posts|];
            && p.id == DecimalString(t.now) && p.createdAt == t.date && !p.published
            && p.title == form.title && p.excerpt == form.excerpt
            && p.content == form.content && p.category == form.category
            && p.tags.None? && p.favorite.None? && p.scheduledAt.None?
            && p.views.None? && p.likes.None? && p.orderIndex.None?
    ensures WritesOnly(stored, o.written, PostList(o.items))
  {
    var post := BlogPost(DecimalString(t.now), form.title, form.excerpt, form.content, form.category,
                         false, t.date, None, None, None, None, None, None);
    AddPost(posts, stored, post, t.now)
  }

  /** A created post's id reads back as the `Date.now()` reading, so posts
      created at different `Date.now()` readings never share an id, whatever
      the `new Date()` readings were. */
  lemma CreatedPostIdIsClockReading(posts: seq<BlogPost>, stored: Stored, form: PostForm, t: ClockReadings, t': ClockReadings)
    ensures ParseDecimal(CreatePost(posts, stored, form, t).items[|posts|].id) == t.now
    ensures t.now != t'.now ==> CreatePost(posts, stored, form, t).items[|posts|].id
                                != CreatePost(posts, stored, form, t').items[|posts|].id
  {
    DecimalRoundTrip(t.now);
    if DecimalString(t.now) == DecimalString(t'.now) {
      DecimalInjective(t.now, t'.now);
    }
  }

  /** What the testimonial form submits; the rating comes from a choice of
      one to five stars. */
  datatype TestimonialForm = TestimonialForm(name: string, role: string, company: string, content: string, rating: int)

  /** The testimonial `handleCreate`: no avatar and not featured. */
  function CreateTestimonial(items: seq<Testimonial>, stored: Stored, form: TestimonialForm, t: ClockReadings): (o: Outcome<Testimonial>)
    ensures |o.items| == |items| + 1 && o.items[..|items|] == items
    ensures var x := o.items[|items|];
            && x.id == DecimalString(t.now) && x.createdAt == t.date
            && x.avatarUrl.None? && !x.featured && x.rating == form.rating
            && x.name == form.name && x.role == form.role
            && x.company == form.company && x.content == form.content
            && x.favorite.None? && x.orderIndex.None?
    ensures WritesOnly(stored, o.written, TestimonialList(o.items))
  {
    var x := Testimonial(DecimalString(t.now), form.name, form.role, form.company, form.content,
                         None, form.rating, false, t.date, None, None);
    AddTestimonial(items, stored, x, t.now)
  }

  /** What the case-study form submits. */
  datatype CaseStudyForm = CaseStudyForm(
    title: string, client: string, industry: string, challenge: string, solution: string, results: string)

  /** The case-study `handleCreate`: the slug is derived from the title, no
      cover image, not featured. */
  function CreateCaseStudy(items: seq<CaseStudy>, stored: Stored, form: CaseStudyForm, t: ClockReadings): (o: Outcome<CaseStudy>)
    ensures |o.items| == |items| + 1 && o.items[..|items|] == items
    ensures var s := o.items[|items|];
            && s.id == DecimalString(t.now) && s.createdAt == t.date
            && s.slug == Slug.CaseStudySlug(form.title)
            && s.coverImage.None? && !s.featured
            && s.title == form.title && s.client == form.client && s.industry == form.industry
            && s.challenge == form.challenge && s.solution == form.solution && s.results == form.results
            && s.tags.None? && s.favorite.None? && s.orderIndex.None?
    ensures WritesOnly(stored, o.written, CaseStudyList(o.items))
  {
    var s := CaseStudy(DecimalString(t.now), form.title, Slug.CaseStudySlug(form.title), form.client,
                       form.industry, form.challenge, form.solution, form.results,
                       None, false, t.date, None, None, None);
    AddCaseStudy(items, stored, s, t.now)
  }

  /** A created case study's slug holds no white space and deriving a slug
      from it again changes nothing. */
  lemma CreatedCaseStudySlugIsStable(items: seq<CaseStudy>, stored: Stored, form: CaseStudyForm, t: ClockReadings)
    ensures var s := CreateCaseStudy(items, stored, form, t).items[|items|];
            Slug.CaseStudySlug(s.slug) == s.slug
  {
    Slug.CaseStudySlugIdempotent(form.title);
  }

  /** What the course form submits; `features` is one comma-separated line. */
  datatype CourseForm = CourseForm(title: string, description: string, price: string, features: string)

  /** `data.features ? data.features.split(',') : []`: the pieces between
      commas, untrimmed; an empty line gives no features at all. */
  function Features(line: string): (r: seq<string>)
    ensures line == "" <==> r == []
    ensures line != "" ==> |r| == Occurrences(line, ',') + 1
    ensures forall i :: 0 <= i < |r| ==> ',' !in r[i]
  {
    if line == "" then []
    else
      SplitCount(line, ',');
      Split(line, ',')
  }

  /** Joining the features with commas gives back the line typed in: the
      split neither trims nor drops anything. */
  lemma FeaturesRoundTrip(line: string)
    ensures Join(Features(line), ',') == line
  {
    if line != "" {
      JoinSplit(line, ',');
    }
  }

  /** The course `handleCreate`: category `course` and icon `Code2` are
      fixed, the features come from the comma-separated line. */
  function CreateCourse(items: seq<Course>, stored: Stored, form: CourseForm, now: nat): (o: Outcome<Course>)
    ensures |o.items| == |items| + 1 && o.items[..|items|] == items
    ensures var c := o.items[|items|];
            && c.id == DecimalString(now) && c.category == "course" && c.icon == "Code2"
            && c.features == Features(form.features) && Join(c.features, ',') == form.features
            && c.title == form.title && c.description == form.description && c.price == form.price
            && c.tags.None?
    ensures WritesOnly(stored, o.written, CourseList(o.items))
  {
    FeaturesRoundTrip(form.features);
    var c := Course(DecimalString(now), form.title, form.description, form.price,
                    "course", "Code2", Features(form.features), None);
    AddCourse(items, stored, c, now)
  }

  // ----- toggles -----

  /** `togglePublish(post)`: every post with that id gets the opposite of
      the given post's flag; nothing else changes. */
  function TogglePublish(posts: seq<BlogPost>, stored: Stored, post: BlogPost): (o: Outcome<BlogPost>)
    ensures |o.items| == |posts|
    ensures forall i :: 0 <= i < |posts| ==>
              o.items[i] == if posts[i].id == post.id then posts[i].(published := !post.published) else posts[i]
    ensures WritesOnly(stored, o.written, PostList(o.items))
  {
    UpdatePost(posts, stored, post.id, PublishedPatch(!post.published))
  }

  /** Pressing publish twice on a post whose id is unique restores the list. */
  lemma TogglePublishTwice(posts: seq<BlogPost>, stored: Stored, i: nat)
    requires i < |posts|
    requires forall j :: 0 <= j < |posts| && j != i ==> posts[j].id != posts[i].id
    ensures var once := TogglePublish(posts, stored, posts[i]).items;
            TogglePublish(once, stored, once[i]).items == posts
  {
    var once := TogglePublish(posts, stored, posts[i]).items;
    var twice := TogglePublish(once, stored, once[i]).items;
    assert forall j :: 0 <= j < |posts| ==> twice[j] == posts[j];
  }

  /** The testimonial `toggleFeatured`. */
  function ToggleTestimonialFeatured(items: seq<Testimonial>, stored: Stored, t: Testimonial): (o: Outcome<Testimonial>)
    ensures |o.items| == |items|
    ensures forall i :: 0 <= i < |items| ==>
              o.items[i] == if items[i].id == t.id then items[i].(featured := !t.featured) else items[i]
    ensures WritesOnly(stored, o.written, TestimonialList(o.items))
  {
    UpdateTestimonial(items, stored, t.id, TestimonialFeaturedPatch(!t.featured))
  }

  /** The case-study tab's feature button. */
  function ToggleCaseStudyFeatured(items: seq<CaseStudy>, stored: Stored, s: CaseStudy): (o: Outcome<CaseStudy>)
    ensures |o.items| == |items|
    ensures forall i :: 0 <= i < |items| ==>
              o.items[i] == if items[i].id == s.id then items[i].(featured := !s.featured) else items[i]
    ensures WritesOnly(stored, o.written, CaseStudyList(o.items))
  {
    UpdateCaseStudy(items, stored, s.id, CaseStudyFeaturedPatch(!s.featured))
  }

  /** Featuring twice restores the list, for testimonials and case studies
      alike, when the id is unique. */
  lemma ToggleFeaturedTwice(ts: seq<Testimonial>, ss: seq<CaseStudy>, stored: Stored, i: nat, k: nat)
    requires i < |ts| && forall j :: 0 <= j < |ts| && j != i ==> ts[j].id != ts[i].id
    requires k < |ss| && forall j :: 0 <= j < |ss| && j != k ==> ss[j].id != ss[k].id
    ensures var once := ToggleTestimonialFeatured(ts, stored, ts[i]).items;
            ToggleTestimonialFeatured(once, stored, once[i]).items == ts
    ensures var once := ToggleCaseStudyFeatured(ss, stored, ss[k]).items;
            ToggleCaseStudyFeatured(once, stored, once[k]).items == ss
  {
    TestimonialFeaturedTwice(ts, stored, i);
    CaseStudyFeaturedTwice(ss, stored, k);
  }

  lemma TestimonialFeaturedTwice(ts: seq<Testimonial>, stored: Stored, i: nat)
    requires i < |ts| && forall j :: 0 <= j < |ts| && j != i ==> ts[j].id != ts[i].id
    ensures var once := ToggleTestimonialFeatured(ts, stored, ts[i]).items;
            ToggleTestimonialFeatured(once, stored, once[i]).items == ts
  {
    var once := ToggleTestimonialFeatured(ts, stored, ts[i]).items;
    var twice := ToggleTestimonialFeatured(once, stored, once[i]).items;
    assert forall j :: 0 <= j < |ts| ==> twice[j] == ts[j];
  }

  lemma CaseStudyFeaturedTwice(ss: seq<CaseStudy>, stored: Stored, k: nat)
    requires k < |ss| && forall j :: 0 <= j < |ss| && j != k ==> ss[j].id != ss[k].id
    ensures var once := ToggleCaseStudyFeatured(ss, stored, ss[k]).items;
            ToggleCaseStudyFeatured(once, stored, once[k]).items == ss
  {
    var once := ToggleCaseStudyFeatured(ss, stored, ss[k]).items;
    var twice := ToggleCaseStudyFeatured(once, stored, once[k]).items;
    assert forall j :: 0 <= j < |ss| ==> twice[j] == ss[j];
  }
}
