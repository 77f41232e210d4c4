/** The records kept in the browser's local store and their partial
    updates. A field the source declares optional (`tags?`, `favorite?`, ...)
    or nullable (`avatarUrl: string | null`) is an `Option`; a timestamp
    (`Date | string`) is a number of milliseconds. */
module Entities {
  import opened Common

  datatype BlogPost = BlogPost(
    id: string,
    title: string,
    excerpt: string,
    content: string,
    category: string,
    published: bool,
    createdAt: int,
    tags: Option<seq<string>>,
    favorite: Option<bool>,
    scheduledAt: Option<int>,
    views: Option<int>,
    likes: Option<int>,
    orderIndex: Option<int>)

  datatype Testimonial = Testimonial(
    id: string,
    name: string,
    role: string,
    company: string,
    content: string,
    avatarUrl: Option<string>,
    rating: int,
    featured: bool,
    createdAt: int,
    favorite: Option<bool>,
    orderIndex: Option<int>)

  datatype Course = Course(
    id: string,
    title: string,
    description: string,
    price: string,
    category: string,
    icon: string,
    features: seq<string>,
    tags: Option<seq<string>>)

  datatype CaseStudy = CaseStudy(
    id: string,
    title: string,
    slug: string,
    client: string,
    industry: string,
    challenge: string,
    solution: string,
    results: string,
    coverImage: Option<string>,
    featured: bool,
    createdAt: int,
    tags: Option<seq<string>>,
    favorite: Option<bool>,
    orderIndex: Option<int>)

  datatype Contact = Contact(
    id: string,
    name: string,
    email: string,
    company: Option<string>,
    subject: string,
    message: string,
    isRead: bool,
    createdAt: int)

  function PostId(p: BlogPost): string { p.id }
  function TestimonialId(t: Testimonial): string { t.id }
  function CourseId(c: Course): string { c.id }
  function CaseStudyId(s: CaseStudy): string { s.id }
  function ContactId(c: Contact): string { c.id }

  function PostWithId(p: BlogPost, id: string): BlogPost { p.(id := id) }
  function TestimonialWithId(t: Testimonial, id: string): Testimonial { t.(id := id) }
  function CourseWithId(c: Course, id: string): Course { c.(id := id) }
  function CaseStudyWithId(s: CaseStudy, id: string): CaseStudy { s.(id := id) }
  function ContactWithId(c: Contact, id: string): Contact { c.(id := id) }

  /** `Partial<BlogPost>`: `None` is a key the update object does not carry.
      An optional field's patch is `Some(None)` when the key is present with
      the value `undefined`, which the spread copies over. */
  datatype PostPatch = PostPatch(
    id: Option<string>,
    title: Option<string>,
    excerpt: Option<string>,
    content: Option<string>,
    category: Option<string>,
    published: Option<bool>,
    createdAt: Option<int>,
    tags: Option<Option<seq<string>>>,
    favorite: Option<Option<bool>>,
    scheduledAt: Option<Option<int>>,
    views: Option<Option<int>>,
    likes: Option<Option<int>>,
    orderIndex: Option<Option<int>>)

  datatype TestimonialPatch = TestimonialPatch(
    id: Option<string>,
    name: Option<string>,
    role: Option<string>,
    company: Option<string>,
    content: Option<string>,
    avatarUrl: Option<Option<string>>,
    rating: Option<int>,
    featured: Option<bool>,
    createdAt: Option<int>,
    favorite: Option<Option<bool>>,
    orderIndex: Option<Option<int>>)

  datatype CoursePatch = CoursePatch(
    id: Option<string>,
    title: Option<string>,
    description: Option<string>,
    price: Option<string>,
    category: Option<string>,
    icon: Option<string>,
    features: Option<seq<string>>,
    tags: Option<Option<seq<string>>>)

  datatype CaseStudyPatch = CaseStudyPatch(
    id: Option<string>,
    title: Option<string>,
    slug: Option<string>,
    client: Option<string>,
    industry: Option<string>,
    challenge: Option<string>,
    solution: Option<string>,
    results: Option<string>,
    coverImage: Option<Option<string>>,
    featured: Option<bool>,
    createdAt: Option<int>,
    tags: Option<Option<seq<string>>>,
    favorite: Option<Option<bool>>,
    orderIndex: Option<Option<int>>)

  /** The patches with no keys. */
  const NoPostChange := PostPatch(None, None, None, None, None, None, None, None, None, None, None, None, None)
  const NoTestimonialChange := TestimonialPatch(None, None, None, None, None, None, None, None, None, None, None)
  const NoCaseStudyChange := CaseStudyPatch(None, None, None, None, None, None, None, None, None, None, None, None, None, None)

  /** `{ published: v }`, the patch `togglePublish` sends. */
  function PublishedPatch(v: bool): PostPatch { NoPostChange.(published := Some(v)) }

  /** `{ featured: v }`, the patch `toggleFeatured` sends. */
  function TestimonialFeaturedPatch(v: bool): TestimonialPatch { NoTestimonialChange.(featured := Some(v)) }
  function CaseStudyFeaturedPatch(v: bool): CaseStudyPatch { NoCaseStudyChange.(featured := Some(v)) }

  /** The shallow merge `{ ...p, ...u }`: every key `u` carries wins. */
  function MergePost(p: BlogPost, u: PostPatch): BlogPost {
    BlogPost(
      u.id.GetOr(p.id), u.title.GetOr(p.title), u.excerpt.GetOr(p.excerpt),
      u.content.GetOr(p.content), u.category.GetOr(p.category),
      u.published.GetOr(p.published), u.createdAt.GetOr(p.createdAt),
      u.tags.GetOr(p.tags), u.favorite.GetOr(p.favorite), u.scheduledAt.GetOr(p.scheduledAt),
      u.views.GetOr(p.views), u.likes.GetOr(p.likes), u.orderIndex.GetOr(p.orderIndex))
  }

  function MergeTestimonial(t: Testimonial, u: TestimonialPatch): Testimonial {
    Testimonial(
      u.id.GetOr(t.id), u.name.GetOr(t.name), u.role.GetOr(t.role),
      u.company.GetOr(t.company), u.content.GetOr(t.content),
      u.avatarUrl.GetOr(t.avatarUrl), u.rating.GetOr(t.rating),
      u.featured.GetOr(t.featured), u.createdAt.GetOr(t.createdAt),
      u.favorite.GetOr(t.favorite), u.orderIndex.GetOr(t.orderIndex))
  }

  function MergeCourse(c: Course, u: CoursePatch): Course {
    Course(
      u.id.GetOr(c.id), u.title.GetOr(c.title), u.description.GetOr(c.description),
      u.price.GetOr(c.price), u.category.GetOr(c.category), u.icon.GetOr(c.icon),
      u.features.GetOr(c.features), u.tags.GetOr(c.tags))
  }

  function MergeCaseStudy(s: CaseStudy, u: CaseStudyPatch): CaseStudy {
    CaseStudy(
      u.id.GetOr(s.id), u.title.GetOr(s.title), u.slug.GetOr(s.slug),
      u.client.GetOr(s.client), u.industry.GetOr(s.industry),
      u.challenge.GetOr(s.challenge), u.solution.GetOr(s.solution),
      u.results.GetOr(s.results), u.coverImage.GetOr(s.coverImage),
      u.featured.GetOr(s.featured), u.createdAt.GetOr(s.createdAt),
      u.tags.GetOr(s.tags), u.favorite.GetOr(s.favorite), u.orderIndex.GetOr(s.orderIndex))
  }

  /** Merging the same patch twice is merging it once, and merging the empty
      patch changes nothing. */
  lemma MergePostLaws(p: BlogPost, u: PostPatch)
    ensures MergePost(MergePost(p, u), u) == MergePost(p, u)
    ensures MergePost(p, NoPostChange) == p
  {
  }

  /** A one-field patch changes that field and nothing else. */
  lemma PublishedPatchChangesOnlyPublished(p: BlogPost, v: bool)
    ensures MergePost(p, PublishedPatch(v)) == p.(published := v)
  {
  }

  lemma FeaturedPatchesChangeOnlyFeatured(t: Testimonial, s: CaseStudy, v: bool)
    ensures MergeTestimonial(t, TestimonialFeaturedPatch(v)) == t.(featured := v)
    ensures MergeCaseStudy(s, CaseStudyFeaturedPatch(v)) == s.(featured := v)
  {
  }
}
