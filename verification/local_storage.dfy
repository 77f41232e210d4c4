/** The local-storage repository (client/src/hooks/useLocalStorage.ts).
    Every hook keeps its own in-memory list; each mutation computes the new
    list, replaces the hook's list, then reads the one stored document,
    overwrites the hook's own collection in it and writes it back. The stored
    document is a value here, not JSON text. */
module LocalStorage {
  import opened Common
  import opened Entities

  /** `LocalStorageData`: the five collections under one storage key. */
  datatype Document = Document(
    blogPosts: seq<BlogPost>,
    testimonials: seq<Testimonial>,
    courses: seq<Course>,
    caseStudies: seq<CaseStudy>,
    contacts: seq<Contact>)

  /** The document a mutation starts from when nothing is stored. */
  const EmptyDocument := Document([], [], [], [], [])

  /** What `localStorage.getItem` yields for the document key: nothing (or
      the empty string, which is just as falsy), text that parses to a
      document, or text that `JSON.parse` rejects. */
  datatype Stored = Absent | Valid(doc: Document) | Malformed

  /** The exception `JSON.parse` throws on malformed text. */
  datatype StorageError = ParseError

  /** The keys of `LocalStorageData`. */
  datatype Kind = BlogPostsKey | TestimonialsKey | CoursesKey | CaseStudiesKey | ContactsKey

  /** The value stored under one key. */
  datatype Collection =
    | PostList(posts: seq<BlogPost>)
    | TestimonialList(testimonials: seq<Testimonial>)
    | CourseList(courses: seq<Course>)
    | CaseStudyList(studies: seq<CaseStudy>)
    | ContactList(contacts: seq<Contact>)

  function KindOf(c: Collection): Kind {
    match c
    case PostList(_) => BlogPostsKey
    case TestimonialList(_) => TestimonialsKey
    case CourseList(_) => CoursesKey
    case CaseStudyList(_) => CaseStudiesKey
    case ContactList(_) => ContactsKey
  }

  /** `data[key]`. */
  function Get(d: Document, k: Kind): (c: Collection)
    ensures KindOf(c) == k
  {
    match k
    case BlogPostsKey => PostList(d.blogPosts)
    case TestimonialsKey => TestimonialList(d.testimonials)
    case CoursesKey => CourseList(d.courses)
    case CaseStudiesKey => CaseStudyList(d.caseStudies)
    case ContactsKey => ContactList(d.contacts)
  }

  /** `data[key] = items`. */
  function Put(d: Document, c: Collection): (r: Document)
    ensures Get(r, KindOf(c)) == c
    ensures forall k :: k != KindOf(c) ==> Get(r, k) == Get(d, k)
  {
    match c
    case PostList(s) => d.(blogPosts := s)
    case TestimonialList(s) => d.(testimonials := s)
    case CourseList(s) => d.(courses := s)
    case CaseStudyList(s) => d.(caseStudies := s)
    case ContactList(s) => d.(contacts := s)
  }

  /** The document a read-modify-write starts from:
      `stored ? JSON.parse(stored) : { ...five empty lists }`. */
  function Base(stored: Stored): Result<Document, StorageError> {
    match stored
    case Absent => Ok(EmptyDocument)
    case Valid(d) => Ok(d)
    case Malformed => Err(ParseError)
  }

  /** `saveData(key, items)` and the tail of every hook mutation: the stored
      document with exactly one collection replaced. A malformed stored
      document makes the parse throw and nothing is written. */
  function SaveData(stored: Stored, c: Collection): (r: Result<Document, StorageError>)
    ensures r.Err? <==> stored.Malformed?
    ensures r.Ok? ==> Get(r.value, KindOf(c)) == c
    ensures r.Ok? ==> forall k :: k != KindOf(c) ==> Get(r.value, k) == Get(Base(stored).value, k)
    ensures stored.Absent? ==> r == Ok(Put(EmptyDocument, c))
  {
    match Base(stored)
    case Ok(d) => Ok(Put(d, c))
    case Err(e) => Err(e)
  }

  /** `useLocalStorageData`: the whole document, where a parse failure is
      caught and leaves the initial empty document. */
  function LoadAll(stored: Stored): (d: Document)
    ensures stored.Valid? ==> d == stored.doc
    ensures !stored.Valid? ==> d == EmptyDocument
  {
    match stored
    case Valid(doc) => doc
    case _ => EmptyDocument
  }

  /** The mount effect of one collection hook: `data.<key> || []`, with no
      protection against a parse failure. */
  function LoadCollection(stored: Stored, k: Kind): (r: Result<Collection, StorageError>)
    ensures r.Err? <==> stored.Malformed?
    ensures stored.Valid? ==> r == Ok(Get(stored.doc, k))
    ensures stored.Absent? ==> r == Ok(Get(EmptyDocument, k))
  {
    match stored
    case Absent => Ok(Get(EmptyDocument, k))
    case Valid(d) => Ok(Get(d, k))
    case Malformed => Err(ParseError)
  }

  /** Whatever a mutation writes is what the next hook to mount reads, for
      its own key and every other. */
  lemma SaveThenLoad(stored: Stored, c: Collection, k: Kind)
    requires !stored.Malformed?
    ensures SaveData(stored, c).Ok?
    ensures LoadCollection(Valid(SaveData(stored, c).value), KindOf(c)) == Ok(c)
    ensures k != KindOf(c) ==> LoadCollection(Valid(SaveData(stored, c).value), k) == LoadCollection(stored, k)
  {
  }

  // ----- the list operations every hook shares -----

  /** `withId` really sets the key `idOf` reads. */
  ghost predicate IdSetter<T(!new)>(idOf: T -> string, withId: (T, string) -> T) {
    forall x, s :: idOf(withId(x, s)) == s
  }

  /** The id an added record ends up with: `item.id || Date.now().toString()`. */
  function AssignedId(id: string, now: nat): (r: string)
    ensures r != ""
    ensures id != "" ==> r == id
  {
    if id != "" then id else DecimalString(now)
  }

  /** `[...items, { ...item, id: item.id || Date.now().toString() }]`. */
  function Append<T(!new)>(items: seq<T>, item: T, idOf: T -> string, withId: (T, string) -> T, now: nat): (r: seq<T>)
    requires IdSetter(idOf, withId)
    ensures |r| == |items| + 1 && r[..|items|] == items
    ensures idOf(r[|items|]) == AssignedId(idOf(item), now)
    ensures idOf(item) != "" ==> r[|items|] == item
  {
    items + [if idOf(item) != "" then item else withId(item, DecimalString(now))]
  }

  /** `items.map(x => x.id === id ? merge(x, patch) : x)`. */
  function UpdateWhere<T, P>(items: seq<T>, id: string, patch: P, idOf: T -> string, merge: (T, P) -> T): (r: seq<T>)
    ensures |r| == |items|
    ensures forall i :: 0 <= i < |items| && idOf(items[i]) == id ==> r[i] == merge(items[i], patch)
    ensures forall i :: 0 <= i < |items| && idOf(items[i]) != id ==> r[i] == items[i]
    decreases |items|
  {
    if |items| == 0 then []
    else
      var head := if idOf(items[0]) == id then merge(items[0], patch) else items[0];
      [head] + UpdateWhere(items[1..], id, patch, idOf, merge)
  }

  /** Updating an id no record carries changes nothing and is no error. */
  lemma UpdateAbsent<T, P>(items: seq<T>, id: string, patch: P, idOf: T -> string, merge: (T, P) -> T)
    requires forall i :: 0 <= i < |items| ==> idOf(items[i]) != id
    ensures UpdateWhere(items, id, patch, idOf, merge) == items
  {
  }

  /** `items.filter(x => x.id !== id)`. */
  function RemoveWhere<T>(items: seq<T>, id: string, idOf: T -> string): (r: seq<T>)
    ensures forall i :: 0 <= i < |r| ==> idOf(r[i]) != id && r[i] in items
    ensures forall i :: 0 <= i < |items| && idOf(items[i]) != id ==> items[i] in r
    ensures IsSubseq(r, items)
    ensures multiset(r) <= multiset(items)
    ensures forall i :: 0 <= i < |items| && idOf(items[i]) != id ==> multiset(r)[items[i]] == multiset(items)[items[i]]
  {
    FilterCounts(items, x => idOf(x) != id);
    Filter(items, x => idOf(x) != id)
  }

  /** Removing twice is removing once: a second delete is not an error and
      changes nothing. */
  lemma RemoveIdempotent<T>(items: seq<T>, id: string, idOf: T -> string)
    ensures RemoveWhere(RemoveWhere(items, id, idOf), id, idOf) == RemoveWhere(items, id, idOf)
  {
    FilterIdempotent(items, x => idOf(x) != id);
  }

  /** Removing an id no record carries changes nothing. */
  lemma RemoveAbsent<T>(items: seq<T>, id: string, idOf: T -> string)
    requires forall i :: 0 <= i < |items| ==> idOf(items[i]) != id
    ensures RemoveWhere(items, id, idOf) == items
  {
    FilterKeepsAll(items, x => idOf(x) != id);
  }

  /** After an add, looking the assigned id up finds the added record
      provided no earlier record already carried that id. */
  lemma AppendThenFind<T(!new)>(items: seq<T>, item: T, idOf: T -> string, withId: (T, string) -> T, now: nat)
    requires IdSetter(idOf, withId)
    requires forall i :: 0 <= i < |items| ==> idOf(items[i]) != AssignedId(idOf(item), now)
    ensures FindFirst(Append(items, item, idOf, withId, now), idOf, AssignedId(idOf(item), now))
            == Some(Append(items, item, idOf, withId, now)[|items|])
  {
    var r := Append(items, item, idOf, withId, now);
    var k := AssignedId(idOf(item), now);
    var f := FindFirst(r, idOf, k);
    assert idOf(r[|items|]) == k;
    assert forall i :: 0 <= i < |items| ==> r[i] == items[i];
    if f.Some? {
      var i :| 0 <= i < |r| && r[i] == f.value && idOf(r[i]) == k
               && forall j :: 0 <= j < i ==> idOf(r[j]) != k;
      assert i == |items|;
    }
  }

  /** After a delete, looking the id up finds nothing. */
  lemma RemoveThenFind<T>(items: seq<T>, id: string, idOf: T -> string)
    ensures FindFirst(RemoveWhere(items, id, idOf), idOf, id) == None
  {
  }

  // ----- the five hooks -----

  /** A hook mutation: the hook's new list (set before anything else
      happens) and the document written back, or the parse failure that
      stopped the write. */
  datatype Outcome<T> = Outcome(items: seq<T>, written: Result<Document, StorageError>)

  /** The write-back of a mutation replaced the hook's collection and only it. */
  ghost predicate WritesOnly(stored: Stored, written: Result<Document, StorageError>, c: Collection) {
    && (written.Err? <==> stored.Malformed?)
    && (written.Ok? ==> Get(written.value, KindOf(c)) == c)
    && (written.Ok? ==> forall k :: k != KindOf(c) ==> Get(written.value, k) == Get(Base(stored).value, k))
  }

  function Commit<T>(stored: Stored, items: seq<T>, c: Collection): (o: Outcome<T>)
    ensures o.items == items && WritesOnly(stored, o.written, c)
  {
    Outcome(items, SaveData(stored, c))
  }

  /** `useBlogPosts().addPost`. */
  function AddPost(posts: seq<BlogPost>, stored: Stored, post: BlogPost, now: nat): (o: Outcome<BlogPost>)
    ensures |o.items| == |posts| + 1 && o.items[..|posts|] == posts
    ensures o.items[|posts|] == post.(id := AssignedId(post.id, now))
    ensures WritesOnly(stored, o.written, PostList(o.items))
  {
    var items := Append(posts, post, PostId, PostWithId, now);
    Commit(stored, items, PostList(items))
  }

  /** `useBlogPosts().updatePost`. */
  function UpdatePost(posts: seq<BlogPost>, stored: Stored, id: string, patch: PostPatch): (o: Outcome<BlogPost>)
    ensures |o.items| == |posts|
    ensures forall i :: 0 <= i < |posts| ==> o.items[i] == if posts[i].id == id then MergePost(posts[i], patch) else posts[i]
    ensures WritesOnly(stored, o.written, PostList(o.items))
  {
    var items := UpdateWhere(posts, id, patch, PostId, MergePost);
    Commit(stored, items, PostList(items))
  }

  /** `useBlogPosts().deletePost`. */
  function DeletePost(posts: seq<BlogPost>, stored: Stored, id: string): (o: Outcome<BlogPost>)
    ensures forall i :: 0 <= i < |o.items| ==> o.items[i].id != id
    ensures forall i :: 0 <= i < |posts| && posts[i].id != id ==> posts[i] in o.items
    ensures IsSubseq(o.items, posts)
    ensures multiset(o.items) <= multiset(posts)
    ensures forall i :: 0 <= i < |posts| && posts[i].id != id ==> multiset(o.items)[posts[i]] == multiset(posts)[posts[i]]
    ensures WritesOnly(stored, o.written, PostList(o.items))
  {
    var items := RemoveWhere(posts, id, PostId);
    Commit(stored, items, PostList(items))
  }

  /** `useTestimonials().add`. */
  function AddTestimonial(items: seq<Testimonial>, stored: Stored, t: Testimonial, now: nat): (o: Outcome<Testimonial>)
    ensures |o.items| == |items| + 1 && o.items[..|items|] == items
    ensures o.items[|items|] == t.(id := AssignedId(t.id, now))
    ensures WritesOnly(stored, o.written, TestimonialList(o.items))
  {
    var r := Append(items, t, TestimonialId, TestimonialWithId, now);
    Commit(stored, r, TestimonialList(r))
  }

  /** `useTestimonials().update`. */
  function UpdateTestimonial(items: seq<Testimonial>, stored: Stored, id: string, patch: TestimonialPatch): (o: Outcome<Testimonial>)
    ensures |o.items| == |items|
    ensures forall i :: 0 <= i < |items| ==> o.items[i] == if items[i].id == id then MergeTestimonial(items[i], patch) else items[i]
    ensures WritesOnly(stored, o.written, TestimonialList(o.items))
  {
    var r := UpdateWhere(items, id, patch, TestimonialId, MergeTestimonial);
    Commit(stored, r, TestimonialList(r))
  }

  /** `useTestimonials().remove`. */
  function RemoveTestimonial(items: seq<Testimonial>, stored: Stored, id: string): (o: Outcome<Testimonial>)
    ensures forall i :: 0 <= i < |o.items| ==> o.items[i].id != id
    ensures forall i :: 0 <= i < |items| && items[i].id != id ==> items[i] in o.items
    ensures IsSubseq(o.items, items)
    ensures multiset(o.items) <= multiset(items)
    ensures forall i :: 0 <= i < |items| && items[i].id != id ==> multiset(o.items)[items[i]] == multiset(items)[items[i]]
    ensures WritesOnly(stored, o.written, TestimonialList(o.items))
  {
    var r := RemoveWhere(items, id, TestimonialId);
    Commit(stored, r, TestimonialList(r))
  }

  /** `useCaseStudies().add`. */
  function AddCaseStudy(items: seq<CaseStudy>, stored: Stored, s: CaseStudy, now: nat): (o: Outcome<CaseStudy>)
    ensures |o.items| == |items| + 1 && o.items[..|items|] == items
    ensures o.items[|items|] == s.(id := AssignedId(s.id, now))
    ensures WritesOnly(stored, o.written, CaseStudyList(o.items))
  {
    var r := Append(items, s, CaseStudyId, CaseStudyWithId, now);
    Commit(stored, r, CaseStudyList(r))
  }

  /** `useCaseStudies().update`. */
  function UpdateCaseStudy(items: seq<CaseStudy>, stored: Stored, id: string, patch: CaseStudyPatch): (o: Outcome<CaseStudy>)
    ensures |o.items| == |items|
    ensures forall i :: 0 <= i < |items| ==> o.items[i] == if items[i].id == id then MergeCaseStudy(items[i], patch) else items[i]
    ensures WritesOnly(stored, o.written, CaseStudyList(o.items))
  {
    var r := UpdateWhere(items, id, patch, CaseStudyId, MergeCaseStudy);
    Commit(stored, r, CaseStudyList(r))
  }

  /** `useCaseStudies().remove`. */
  function RemoveCaseStudy(items: seq<CaseStudy>, stored: Stored, id: string): (o: Outcome<CaseStudy>)
    ensures forall i :: 0 <= i < |o.items| ==> o.items[i].id != id
    ensures forall i :: 0 <= i < |items| && items[i].id != id ==> items[i] in o.items
    ensures IsSubseq(o.items, items)
    ensures multiset(o.items) <= multiset(items)
    ensures forall i :: 0 <= i < |items| && items[i].id != id ==> multiset(o.items)[items[i]] == multiset(items)[items[i]]
    ensures WritesOnly(stored, o.written, CaseStudyList(o.items))
  {
    var r := RemoveWhere(items, id, CaseStudyId);
    Commit(stored, r, CaseStudyList(r))
  }

  /** `useCourses().add`. */
  function AddCourse(items: seq<Course>, stored: Stored, c: Course, now: nat): (o: Outcome<Course>)
    ensures |o.items| == |items| + 1 && o.items[..|items|] == items
    ensures o.items[|items|] == c.(id := AssignedId(c.id, now))
    ensures WritesOnly(stored, o.written, CourseList(o.items))
  {
    var r := Append(items, c, CourseId, CourseWithId, now);
    Commit(stored, r, CourseList(r))
  }

  /** `useCourses().update`. */
  function UpdateCourse(items: seq<Course>, stored: Stored, id: string, patch: CoursePatch): (o: Outcome<Course>)
    ensures |o.items| == |items|
    ensures forall i :: 0 <= i < |items| ==> o.items[i] == if items[i].id == id then MergeCourse(items[i], patch) else items[i]
    ensures WritesOnly(stored, o.written, CourseList(o.items))
  {
    var r := UpdateWhere(items, id, patch, CourseId, MergeCourse);
    Commit(stored, r, CourseList(r))
  }

  /** `useCourses().remove`. */
  function RemoveCourse(items: seq<Course>, stored: Stored, id: string): (o: Outcome<Course>)
    ensures forall i :: 0 <= i < |o.items| ==> o.items[i].id != id
    ensures forall i :: 0 <= i < |items| && items[i].id != id ==> items[i] in o.items
    ensures IsSubseq(o.items, items)
    ensures multiset(o.items) <= multiset(items)
    ensures forall i :: 0 <= i < |items| && items[i].id != id ==> multiset(o.items)[items[i]] == multiset(items)[items[i]]
    ensures WritesOnly(stored, o.written, CourseList(o.items))
  {
    var r := RemoveWhere(items, id, CourseId);
    Commit(stored, r, CourseList(r))
  }

  /** `useContacts().add`. */
  function AddContact(items: seq<Contact>, stored: Stored, c: Contact, now: nat): (o: Outcome<Contact>)
    ensures |o.items| == |items| + 1 && o.items[..|items|] == items
    ensures o.items[|items|] == c.(id := AssignedId(c.id, now))
    ensures WritesOnly(stored, o.written, ContactList(o.items))
  {
    var r := Append(items, c, ContactId, ContactWithId, now);
    Commit(stored, r, ContactList(r))
  }

  function SetRead(c: Contact, v: bool): Contact { c.(isRead := v) }

  /** `markRead(id)`: `isRead = true` on every contact with that id. */
  function MarkReadList(contacts: seq<Contact>, id: string): (r: seq<Contact>)
    ensures |r| == |contacts|
    ensures forall i :: 0 <= i < |r| ==> r[i].isRead == (contacts[i].isRead || contacts[i].id == id)
    ensures forall i :: 0 <= i < |r| ==> r[i].(isRead := contacts[i].isRead) == contacts[i]
  {
    UpdateWhere(contacts, id, true, ContactId, SetRead)
  }

  /** Marking a contact read twice is marking it once. */
  lemma {:induction false} MarkReadIdempotent(contacts: seq<Contact>, id: string)
    ensures MarkReadList(MarkReadList(contacts, id), id) == MarkReadList(contacts, id)
  {
    var once := MarkReadList(contacts, id);
    var twice := MarkReadList(once, id);
    assert forall i :: 0 <= i < |twice| ==> twice[i] == once[i] by {
      forall i | 0 <= i < |twice| ensures twice[i] == once[i] {
        assert twice[i].(isRead := once[i].isRead) == once[i];
      }
    }
  }

  /** `useContacts().markRead`. */
  function MarkRead(contacts: seq<Contact>, stored: Stored, id: string): (o: Outcome<Contact>)
    ensures |o.items| == |contacts|
    ensures forall i :: 0 <= i < |contacts| ==> o.items[i] == if contacts[i].id == id then contacts[i].(isRead := true) else contacts[i]
    ensures WritesOnly(stored, o.written, ContactList(o.items))
  {
    var r := MarkReadList(contacts, id);
    Commit(stored, r, ContactList(r))
  }
}
