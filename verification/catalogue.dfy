/** The public catalogue pages: the course and case-study detail pages
    (client/src/pages/CourseDetail.tsx, client/src/pages/CaseStudyDetail.tsx),
    which look a record up by the id in the address among built-in records
    followed by the stored ones, and the home page's course, case-study and
    testimonial sections (client/src/components/Courses.tsx,
    client/src/components/CaseStudies.tsx,
    client/src/components/Testimonials.tsx), which show the stored records
    or, while nothing is stored, a built-in list. */
module Catalogue {
  import opened Common
  import opened Entities

  // ----- looking a record up on a detail page -----

  /** `(stored && stored.length > 0) ? [...defaults, ...stored] : defaults`:
      the guard makes no difference, the built-in records always come first. */
  function LookupSpace<T>(defaults: seq<T>, stored: seq<T>): (r: seq<T>)
    ensures r == defaults + stored
  {
    if |stored| > 0 then defaults + stored else defaults
  }

  /** Looking up in two lists one after the other: the first list's answer
      wins, the second list is consulted only when the first has nothing. */
  lemma FindFirstAppend<T, K>(a: seq<T>, b: seq<T>, key: T -> K, k: K)
    ensures FindFirst(a + b, key, k) == if FindFirst(a, key, k).Some? then FindFirst(a, key, k) else FindFirst(b, key, k)
  {
    var ab := a + b;
    var r := FindFirst(ab, key, k);
    var ra := FindFirst(a, key, k);
    var rb := FindFirst(b, key, k);
    assert forall m :: 0 <= m < |a| ==> ab[m] == a[m];
    assert forall m :: |a| <= m < |ab| ==> ab[m] == b[m - |a|];
    if ra.Some? {
      var i :| 0 <= i < |a| && a[i] == ra.value && key(a[i]) == k && forall j :: 0 <= j < i ==> key(a[j]) != k;
      assert key(ab[i]) == k;
      var j :| 0 <= j < |ab| && ab[j] == r.value && key(ab[j]) == k && forall m :: 0 <= m < j ==> key(ab[m]) != k;
      assert i == j;
    } else if rb.Some? {
      var i :| 0 <= i < |b| && b[i] == rb.value && key(b[i]) == k && forall j :: 0 <= j < i ==> key(b[j]) != k;
      assert key(ab[|a| + i]) == k;
      var j :| 0 <= j < |ab| && ab[j] == r.value && key(ab[j]) == k && forall m :: 0 <= m < j ==> key(ab[m]) != k;
      assert j == |a| + i;
    }
  }

  /** `all.find(x => x.id === id)`: a built-in record with the id shadows a
      stored one with the same id; a stored record is found only when no
      built-in record carries its id. */
  function Lookup<T>(defaults: seq<T>, stored: seq<T>, idOf: T -> string, id: string): (r: Option<T>)
    ensures r.None? <==> (forall i :: 0 <= i < |defaults| ==> idOf(defaults[i]) != id)
                         && (forall i :: 0 <= i < |stored| ==> idOf(stored[i]) != id)
    ensures FindFirst(defaults, idOf, id).Some? ==> r == FindFirst(defaults, idOf, id)
    ensures FindFirst(defaults, idOf, id).None? ==> r == FindFirst(stored, idOf, id)
  {
    var space := LookupSpace(defaults, stored);
    FindFirstAppend(defaults, stored, idOf, id);
    FindFirst(space, idOf, id)
  }

  /** A record that is the first with its id in a list is what a lookup of
      that id in the list finds. */
  lemma FindFirstAt<T>(s: seq<T>, idOf: T -> string, i: nat)
    requires i < |s|
    requires forall j :: 0 <= j < i ==> idOf(s[j]) != idOf(s[i])
    ensures FindFirst(s, idOf, idOf(s[i])) == Some(s[i])
  {
    var r := FindFirst(s, idOf, idOf(s[i]));
    var j :| 0 <= j < |s| && s[j] == r.value && idOf(s[j]) == idOf(s[i])
             && forall m :: 0 <= m < j ==> idOf(s[m]) != idOf(s[i]);
    assert j == i;
  }

  // ----- the course pages -----

  /** The icons the course pages know by name. */
  const IconNames: set<string> := {"Code2", "Server", "Palette", "Globe", "Smartphone", "GraduationCap"}

  /** `iconMap[icon] || GraduationCap`. */
  function IconShown(icon: string): (r: string)
    ensures r in IconNames
    ensures icon in IconNames ==> r == icon
    ensures icon !in IconNames ==> r == "GraduationCap"
  {
    if icon in IconNames then icon else "GraduationCap"
  }

  /** `features?.[i] || fallback`. */
  function FeatureOr(features: seq<string>, i: nat, fallback: string): (r: string)
    ensures r != "" || fallback == ""
    ensures i < |features| && features[i] != "" ==> r == features[i]
    ensures i >= |features| || features[i] == "" ==> r == fallback
  {
    if i < |features| && features[i] != "" then features[i] else fallback
  }

  /** `$` followed by `price || "Free"`: an empty price reads `$Free`. */
  function PriceLabel(price: string): (r: string)
    ensures |r| >= 2 && r[0] == '$'
    ensures price != "" ==> r[1..] == price
    ensures price == "" ==> r == "$Free"
  {
    "$" + (if price == "" then "Free" else price)
  }

  /** The course detail page's built-in courses. Their descriptions are not
      carried. */
  const DefaultCourses: seq<Course> := [
    Course("course-1", "Complete Web Development Bootcamp", "", "299", "course", "Code2",
           ["60+ hours", "Beginner", "Certificate", "Projects"], None),
    Course("course-2", "Advanced React & Next.js", "", "199", "course", "Globe",
           ["40+ hours", "Advanced", "Live coding", "Real projects"], None),
    Course("course-3", "Backend Mastery with Node.js", "", "179", "course", "Server",
           ["35+ hours", "Intermediate", "REST & GraphQL", "AWS/GCP"], None),
    Course("course-4", "UI/UX Design Fundamentals", "", "149", "course", "Palette",
           ["25+ hours", "Beginner", "Figma files", "Portfolio"], None),
    Course("course-5", "Mobile App Development", "", "249", "course", "Smartphone",
           ["45+ hours", "Intermediate", "iOS & Android", "Publishing"], None),
    Course("course-6", "AI & Machine Learning for Developers", "", "229", "course", "GraduationCap",
           ["30+ hours", "Intermediate", "OpenAI/Claude", "Projects"], None)
  ]

  /** What the course detail page shows: "Course not found", or the course
      with the icon, the level badge, the level and duration lines and the
      price label it renders. */
  datatype CoursePage =
    | CourseNotFound
    | CourseShown(course: Course, icon: string, badge: string, level: string, duration: string, price: string)

  /** The course detail page for the id in the address. A course record has
      no `level` field, so the badge always falls back. */
  function CourseDetail(stored: seq<Course>, id: string): (r: CoursePage)
    ensures r.CourseNotFound? <==> (forall i :: 0 <= i < |DefaultCourses| ==> DefaultCourses[i].id != id)
                                   && (forall i :: 0 <= i < |stored| ==> stored[i].id != id)
    ensures r.CourseShown? ==> r.course.id == id && (r.course in DefaultCourses || r.course in stored)
    ensures r.CourseShown? ==> r.icon == IconShown(r.course.icon) && r.badge == "All Levels"
                               && r.level == FeatureOr(r.course.features, 1, "All Levels")
                               && r.duration == FeatureOr(r.course.features, 0, "Self-paced")
                               && r.price == PriceLabel(r.course.price)
  {
    PageOver(DefaultCourses, stored, id)
  }

  /** The detail page over any list of built-in courses: the contract of
      `CourseDetail` does not depend on which courses are built in. */
  function PageOver(defaults: seq<Course>, stored: seq<Course>, id: string): (r: CoursePage)
    ensures r.CourseNotFound? <==> (forall i :: 0 <= i < |defaults| ==> defaults[i].id != id)
                                   && (forall i :: 0 <= i < |stored| ==> stored[i].id != id)
    ensures r.CourseShown? ==> r.course.id == id && (r.course in defaults || r.course in stored)
    ensures r.CourseShown? ==> r.icon == IconShown(r.course.icon) && r.badge == "All Levels"
                               && r.level == FeatureOr(r.course.features, 1, "All Levels")
                               && r.duration == FeatureOr(r.course.features, 0, "Self-paced")
                               && r.price == PriceLabel(r.course.price)
  {
    match Lookup(defaults, stored, CourseId, id)
    case None => CourseNotFound
    case Some(c) =>
      CourseShown(c, IconShown(c.icon), "All Levels", FeatureOr(c.features, 1, "All Levels"),
                  FeatureOr(c.features, 0, "Self-paced"), PriceLabel(c.price))
  }

  /** The built-in course ids are distinct. */
  lemma DefaultCourseIdsDistinct()
    ensures forall i, j :: 0 <= i < j < |DefaultCourses| ==> DefaultCourses[i].id != DefaultCourses[j].id
  {
  }

  /** Every built-in course opens under its id, whatever is stored, and a
      stored course whose id is a built-in one is never shown. */
  lemma DefaultCoursesAlwaysShown(stored: seq<Course>, i: nat)
    requires i < |DefaultCourses|
    ensures CourseDetail(stored, DefaultCourses[i].id).CourseShown?
    ensures CourseDetail(stored, DefaultCourses[i].id).course == DefaultCourses[i]
  {
    DefaultCourseIdsDistinct();
    FindFirstAt(DefaultCourses, CourseId, i);
  }

  /** A stored course opens under its id when no built-in course and no
      earlier stored course carries that id. */
  lemma StoredCourseShown(stored: seq<Course>, i: nat)
    requires i < |stored|
    requires forall j :: 0 <= j < |DefaultCourses| ==> DefaultCourses[j].id != stored[i].id
    requires forall j :: 0 <= j < i ==> stored[j].id != stored[i].id
    ensures CourseDetail(stored, stored[i].id) == CourseShown(stored[i], IconShown(stored[i].icon), "All Levels",
              FeatureOr(stored[i].features, 1, "All Levels"), FeatureOr(stored[i].features, 0, "Self-paced"),
              PriceLabel(stored[i].price))
  {
    FindFirstAt(stored, CourseId, i);
  }

  /** A course created on the admin page with no price reads `$Free`, and
      one whose features line was empty shows both fallbacks. */
  lemma BareCourseFallbacks(c: Course)
    requires c.price == "" && c.features == []
    ensures PriceLabel(c.price) == "$Free"
    ensures FeatureOr(c.features, 1, "All Levels") == "All Levels"
    ensures FeatureOr(c.features, 0, "Self-paced") == "Self-paced"
  {
  }

  /** A course card on the home page. The built-in list carries a slug and
      a price with its currency sign; a stored course has no slug. */
  datatype CourseCard = CourseCard(id: string, slug: Option<string>, icon: string, features: seq<string>, price: string)

  const StaticCourses: seq<CourseCard> := [
    CourseCard("course-1", Some("complete-web-development-bootcamp"), "Code2",
               ["60+ hours", "Beginner", "Certificate", "Projects"], "$299"),
    CourseCard("course-2", Some("advanced-react-nextjs"), "Globe",
               ["40+ hours", "Advanced", "Live coding", "Real projects"], "$199"),
    CourseCard("course-3", Some("backend-mastery-nodejs"), "Server",
               ["35+ hours", "Intermediate", "REST & GraphQL", "AWS/GCP"], "$179"),
    CourseCard("course-4", Some("uiux-design-fundamentals"), "Palette",
               ["25+ hours", "Beginner", "Figma files", "Portfolio"], "$149"),
    CourseCard("course-5", Some("mobile-app-development"), "Smartphone",
               ["45+ hours", "Intermediate", "iOS & Android", "Publishing"], "$249"),
    CourseCard("course-6", Some("ai-machine-learning-developers"), "GraduationCap",
               ["30+ hours", "Intermediate", "OpenAI/Claude", "Projects"], "$229")
  ]

  function CardOf(c: Course): CourseCard {
    CourseCard(c.id, None, c.icon, c.features, c.price)
  }

  /** `dbCourses.length > 0 ? dbCourses : courses`. */
  function DisplayCourses(stored: seq<Course>): (r: seq<CourseCard>)
    ensures |stored| > 0 ==> |r| == |stored| && forall i :: 0 <= i < |r| ==> r[i].id == stored[i].id && r[i].slug.None?
    ensures |stored| == 0 ==> r == StaticCourses
  {
    if |stored| > 0 then seq(|stored|, i requires 0 <= i < |stored| => CardOf(stored[i])) else StaticCourses
  }

  /** The address part the route `/courses/:id` matches, as the page's id:
      one non-empty segment after the prefix. */
  const CoursesPrefix := "/courses/"

  function CourseRouteId(path: string): (r: Option<string>)
    ensures r.Some? ==> path == CoursesPrefix + r.value && r.value != "" && '/' !in r.value
  {
    if |path| > |CoursesPrefix| && path[..|CoursesPrefix|] == CoursesPrefix && '/' !in path[|CoursesPrefix|..] then
      assert path == CoursesPrefix + path[|CoursesPrefix|..];
      Some(path[|CoursesPrefix|..])
    else None
  }

  /** The route reads back the segment a link was built from. */
  lemma CourseRouteOfLink(segment: string)
    requires segment != "" && '/' !in segment
    ensures CourseRouteId(CoursesPrefix + segment) == Some(segment)
  {
    assert (CoursesPrefix + segment)[..|CoursesPrefix|] == CoursesPrefix;
    assert (CoursesPrefix + segment)[|CoursesPrefix|..] == segment;
  }

  /** Following a link: the detail page for the address, or nothing when
      the address is not a course route. */
  function OpenCourse(stored: seq<Course>, path: string): (r: Option<CoursePage>)
    ensures r.None? <==> CourseRouteId(path).None?
    ensures r.Some? ==> r.value == CourseDetail(stored, CourseRouteId(path).value)
  {
    match CourseRouteId(path)
    case None => None
    case Some(id) => Some(CourseDetail(stored, id))
  }

  /** The "View Course" link as written: the slug goes into the address
      (`undefined` for a stored course, which has none). */
  function CourseLinkAsWritten(card: CourseCard): (r: string)
    ensures card.slug.Some? ==> r == CoursesPrefix + card.slug.value
    ensures card.slug.None? ==> r == CoursesPrefix + "undefined"
  {
    CoursesPrefix + card.slug.GetOr("undefined")
  }

  /** No built-in course's slug is a course id, so every "View Course"
      link on the built-in list lands on "Course not found"; with courses
      stored, every link does unless one of them has the id `undefined`. */
  lemma CourseLinksAsWrittenNeverResolve(stored: seq<Course>, i: nat)
    requires i < |DisplayCourses(stored)|
    requires forall j :: 0 <= j < |stored| ==> stored[j].id != "undefined"
    ensures OpenCourse(stored, CourseLinkAsWritten(DisplayCourses(stored)[i])) == Some(CourseNotFound)
  {
    var segment := DisplayCourses(stored)[i].slug.GetOr("undefined");
    WrittenSegment(stored, i);
    NoDefaultIdLike(segment);
    CourseRouteOfLink(segment);
    assert CourseDetail(stored, segment).CourseNotFound?;
  }

  /** What the "View Course" link puts into the address: a built-in slug,
      or `undefined` for a stored course. */
  lemma WrittenSegment(stored: seq<Course>, i: nat)
    requires i < |DisplayCourses(stored)|
    ensures var segment := DisplayCourses(stored)[i].slug.GetOr("undefined");
            && |segment| >= 3 && (segment[0] != 'c' || segment[2] != 'u') && '/' !in segment
            && (|stored| > 0 ==> segment == "undefined")
  {
    if |stored| == 0 {
      StaticSlugShape(i);
    }
  }

  /** A segment not reading `c?u...` is no built-in course id. */
  lemma NoDefaultIdLike(segment: string)
    requires |segment| >= 3 && (segment[0] != 'c' || segment[2] != 'u')
    ensures forall j :: 0 <= j < |DefaultCourses| ==> DefaultCourses[j].id != segment
  {
    forall j | 0 <= j < |DefaultCourses| ensures DefaultCourses[j].id != segment {
      DefaultCourseIdShape(j);
    }
  }

  /** Every built-in course id reads `cou...`. */
  lemma DefaultCourseIdShape(j: nat)
    requires j < |DefaultCourses|
    ensures |DefaultCourses[j].id| >= 3 && DefaultCourses[j].id[0] == 'c' && DefaultCourses[j].id[2] == 'u'
  {
  }

  /** No built-in slug reads `c?u...`, and none holds a slash. */
  lemma StaticSlugShape(i: nat)
    requires i < |StaticCourses|
    ensures StaticCourses[i].slug.Some?
    ensures var slug := StaticCourses[i].slug.value;
            |slug| >= 3 && (slug[0] != 'c' || slug[2] != 'u') && '/' !in slug
  {
    if i < 3 {
      FirstSlugsShape(i);
    } else {
      LastSlugsShape(i);
    }
  }

  lemma FirstSlugsShape(i: nat)
    requires i < 3
    ensures StaticCourses[i].slug.Some?
    ensures var slug := StaticCourses[i].slug.value;
            |slug| >= 3 && (slug[0] != 'c' || slug[2] != 'u') && '/' !in slug
  {
  }

  lemma LastSlugsShape(i: nat)
    requires 3 <= i < |StaticCourses|
    ensures StaticCourses[i].slug.Some?
    ensures var slug := StaticCourses[i].slug.value;
            |slug| >= 3 && (slug[0] != 'c' || slug[2] != 'u') && '/' !in slug
  {
  }

  /** The link as evidently intended: the id the detail page looks up. */
  function CourseLink(card: CourseCard): (r: string)
    ensures CourseRouteId(r) == (if card.id != "" && '/' !in card.id then Some(card.id) else None)
  {
    var r := CoursesPrefix + card.id;
    if card.id != "" && '/' !in card.id then
      CourseRouteOfLink(card.id);
      r
    else
      assert r[|CoursesPrefix|..] == card.id;
      r
  }

  /** With links by id every card on the home page opens a course page
      showing a course with that id, provided stored ids are single
      non-empty address segments (clock-stamped ids are). */
  lemma CourseLinksResolve(stored: seq<Course>, i: nat)
    requires i < |DisplayCourses(stored)|
    requires forall j :: 0 <= j < |stored| ==> stored[j].id != "" && '/' !in stored[j].id
    ensures OpenCourse(stored, CourseLink(DisplayCourses(stored)[i])).Some?
    ensures var page := OpenCourse(stored, CourseLink(DisplayCourses(stored)[i])).value;
            page.CourseShown? && page.course.id == DisplayCourses(stored)[i].id
  {
    var card := DisplayCourses(stored)[i];
    if |stored| == 0 {
      StaticCardIds(i);
      DefaultCoursesAlwaysShown(stored, i);
    } else {
      assert card.id == stored[i].id;
      assert !CourseDetail(stored, card.id).CourseNotFound?;
    }
    assert CourseRouteId(CourseLink(card)) == Some(card.id);
  }

  /** The home page's built-in cards carry the detail page's built-in ids,
      each a single address segment. */
  lemma StaticCardIds(i: nat)
    requires i < |StaticCourses|
    ensures StaticCourses[i].id == DefaultCourses[i].id
    ensures StaticCourses[i].id != "" && '/' !in StaticCourses[i].id
  {
  }

  // ----- the case-study pages -----

  /** The case-study detail page's built-in studies, created when the page
      module loads (`loadedAt`). Their longer texts are not carried. */
  function DefaultCaseStudies(loadedAt: int): seq<CaseStudy> {
    [ CaseStudy("1", "E-Commerce Platform Redesign", "ecommerce-platform-redesign", "TechCart Inc",
                "E-Commerce", "", "", "", None, true, loadedAt, None, None, None),
      CaseStudy("2", "Digital Transformation for Healthcare Provider", "healthcare-digital-transformation",
                "MedCare Plus", "Healthcare", "", "", "", None, true, loadedAt, None, None, None) ]
  }

  /** The case-study detail page: `None` is "Case Study not found". */
  function CaseStudyDetail(stored: seq<CaseStudy>, id: string, loadedAt: int): (r: Option<CaseStudy>)
    ensures r.None? <==> id != "1" && id != "2" && forall i :: 0 <= i < |stored| ==> stored[i].id != id
    ensures r.Some? ==> r.value.id == id
    ensures id == "1" || id == "2" ==> r.Some? && r.value in DefaultCaseStudies(loadedAt)
    ensures id != "1" && id != "2" ==> r == FindFirst(stored, CaseStudyId, id)
  {
    StudyLookup(DefaultCaseStudies(loadedAt), stored, id)
  }

  /** The case-study lookup over any two built-in studies with the ids "1"
      and "2". */
  function StudyLookup(defaults: seq<CaseStudy>, stored: seq<CaseStudy>, id: string): (r: Option<CaseStudy>)
    requires |defaults| == 2 && defaults[0].id == "1" && defaults[1].id == "2"
    ensures r.None? <==> id != "1" && id != "2" && forall i :: 0 <= i < |stored| ==> stored[i].id != id
    ensures r.Some? ==> r.value.id == id
    ensures id == "1" || id == "2" ==> r.Some? && r.value in defaults
    ensures id != "1" && id != "2" ==> r == FindFirst(stored, CaseStudyId, id)
  {
    FindFirstAt(defaults, CaseStudyId, 0);
    FindFirstAt(defaults, CaseStudyId, 1);
    Lookup(defaults, stored, CaseStudyId, id)
  }

  /** A study created on the admin page opens under its id when no earlier
      stored study has it and the id is not one of the built-in ones. */
  lemma StoredCaseStudyShown(stored: seq<CaseStudy>, i: nat, loadedAt: int)
    requires i < |stored| && stored[i].id != "1" && stored[i].id != "2"
    requires forall j :: 0 <= j < i ==> stored[j].id != stored[i].id
    ensures CaseStudyDetail(stored, stored[i].id, loadedAt) == Some(stored[i])
  {
    FindFirstAt(stored, CaseStudyId, i);
  }

  /** The home page's built-in case studies, both featured. */
  function FallbackCaseStudies(loadedAt: int): seq<CaseStudy> {
    [ CaseStudy("1", "Scaling E-commerce with AI-Powered Automation", "scaling-ecommerce-ai-automation",
                "RetailMax", "E-commerce", "", "", "", None, true, loadedAt, None, None, None),
      CaseStudy("2", "Digital Transformation for Healthcare Provider", "healthcare-digital-transformation",
                "MedCare Plus", "Healthcare", "", "", "", None, true, loadedAt, None, None, None) ]
  }

  predicate IsFeatured(s: CaseStudy) {
    s.featured
  }

  /** The home page's case-study section: the featured stored studies, or
      the built-in ones while nothing is stored, at most four of them. */
  function ShownCaseStudies(stored: seq<CaseStudy>, loadedAt: int): (r: seq<CaseStudy>)
    ensures |r| <= 4
    ensures forall i :: 0 <= i < |r| ==> r[i].featured
    ensures |stored| > 0 ==> forall i :: 0 <= i < |r| ==> r[i] in stored
    ensures |stored| == 0 ==> r == FallbackCaseStudies(loadedAt)
    ensures |stored| > 0 ==> r == Take(Filter(stored, IsFeatured), 4)
    ensures |stored| > 0 ==> |r| == if CountWhere(stored, IsFeatured) < 4 then CountWhere(stored, IsFeatured) else 4
  {
    var studies := if |stored| > 0 then Filter(stored, IsFeatured) else FallbackCaseStudies(loadedAt);
    Take(studies, 4)
  }

  /** A study that is not featured never affects the section, wherever it
      sits in the stored list, as long as something else is stored. */
  lemma UnfeaturedStudyIgnored(before: seq<CaseStudy>, s: CaseStudy, after: seq<CaseStudy>, loadedAt: int)
    requires !s.featured && |before + after| > 0
    ensures ShownCaseStudies(before + [s] + after, loadedAt) == ShownCaseStudies(before + after, loadedAt)
  {
    assert Filter(before + [s] + after, IsFeatured) == Filter(before + after, IsFeatured) by {
      FilterWithout(before, s, after, IsFeatured);
    }
  }

  /** Once anything is stored the built-in studies are gone for good: with
      no stored study featured the section is empty. */
  lemma NothingFeaturedShowsNothing(stored: seq<CaseStudy>, loadedAt: int)
    requires |stored| > 0
    requires forall i :: 0 <= i < |stored| ==> !stored[i].featured
    ensures ShownCaseStudies(stored, loadedAt) == []
  {
    FilterKeepsNone(stored, IsFeatured);
  }

  /** With featured stored studies in hand the section shows the first four
      of them in stored order. */
  lemma FeaturedStudiesInOrder(stored: seq<CaseStudy>, loadedAt: int)
    requires forall i :: 0 <= i < |stored| ==> stored[i].featured
    ensures ShownCaseStudies(stored, loadedAt) == if |stored| > 0 then Take(stored, 4) else FallbackCaseStudies(loadedAt)
  {
    FilterKeepsAll(stored, IsFeatured);
  }

  // ----- the testimonial section -----

  function FallbackTestimonials(loadedAt: int): seq<Testimonial> {
    [ Testimonial("1", "Sarah Chen", "CTO", "TechFlow Solutions", "", None, 5, true, loadedAt, None, None),
      Testimonial("2", "Marcus Johnson", "Founder", "StartupLab", "", None, 5, true, loadedAt, None, None),
      Testimonial("3", "Emma Williams", "Product Manager", "DataDriven Inc", "", None, 5, true, loadedAt, None, None) ]
  }

  /** The stored testimonials, or the built-in ones while nothing is
      stored, at most six of them, in order. */
  function ShownTestimonials(stored: seq<Testimonial>, loadedAt: int): (r: seq<Testimonial>)
    ensures |r| <= 6
    ensures |stored| > 0 ==> |r| == (if |stored| < 6 then |stored| else 6) && r == stored[..|r|]
    ensures |stored| == 0 ==> r == FallbackTestimonials(loadedAt)
  {
    Take(if |stored| > 0 then stored else FallbackTestimonials(loadedAt), 6)
  }

  /** `Array.from({ length: rating })`: a negative length is taken as zero. */
  function Stars(rating: int): (n: nat)
    ensures rating >= 0 ==> n == rating
    ensures rating < 0 ==> n == 0
  {
    if rating < 0 then 0 else rating
  }

  /** A rating picked on the admin form shows that many stars, one to five. */
  lemma FormRatingStars(rating: int)
    requires 1 <= rating <= 5
    ensures 1 <= Stars(rating) <= 5 && Stars(rating) == rating
  {
  }

  /** The first character of each piece; an empty piece contributes
      nothing, because `undefined` joins as the empty string. */
  function FirstChars(parts: seq<string>): (r: string)
    ensures |r| <= |parts|
    ensures (forall i :: 0 <= i < |parts| ==> ' ' !in parts[i]) ==> ' ' !in r
    decreases |parts|
  {
    if |parts| == 0 then ""
    else (if parts[0] == "" then "" else [parts[0][0]]) + FirstChars(parts[1..])
  }

  /** The avatar fallback: `name.split(' ').map(n => n[0]).join('')`. The
      initials are the first letters of the non-empty pieces between spaces,
      one per piece, in order, whatever the spacing. */
  function Initials(name: string): (r: string)
    ensures ' ' !in r
    ensures |r| <= Occurrences(name, ' ') + 1
    ensures var words := Filter(Split(name, ' '), NonEmpty);
            r == seq(|words|, i requires 0 <= i < |words| => words[i][0])
  {
    SplitCount(name, ' ');
    FirstCharsSkipsEmpty(Split(name, ' '));
    FirstCharsOfWords(Filter(Split(name, ' '), NonEmpty));
    FirstChars(Split(name, ' '))
  }

  /** The initials of words joined by single spaces are the words' first
      letters, one per word. */
  lemma {:induction false} FirstCharsOfWords(words: seq<string>)
    requires forall i :: 0 <= i < |words| ==> words[i] != ""
    ensures FirstChars(words) == seq(|words|, i requires 0 <= i < |words| => words[i][0])
    decreases |words|
  {
    if |words| > 0 {
      FirstCharsOfWords(words[1..]);
    }
  }

  lemma InitialsOfWords(words: seq<string>)
    requires |words| >= 1
    requires forall i :: 0 <= i < |words| ==> words[i] != "" && ' ' !in words[i]
    ensures Initials(Join(words, ' ')) == seq(|words|, i requires 0 <= i < |words| => words[i][0])
  {
    SplitJoin(words, ' ');
    FirstCharsOfWords(words);
  }

  predicate NonEmpty(piece: string) {
    piece != ""
  }

  /** Empty pieces contribute nothing: the first characters of the pieces
      are those of the non-empty pieces. */
  lemma {:induction false} FirstCharsSkipsEmpty(parts: seq<string>)
    ensures FirstChars(parts) == FirstChars(Filter(parts, NonEmpty))
    decreases |parts|
  {
    if |parts| > 0 {
      var x, tail := parts[0], parts[1..];
      FirstCharsSkipsEmpty(tail);
      ConsTail(parts);
      FilterCons(x, tail, NonEmpty);
      if x != "" {
        FirstCharsCons(x, Filter(tail, NonEmpty));
      } else {
        assert FirstChars(parts) == FirstChars(tail);
      }
    }
  }

  lemma FirstCharsCons(x: string, t: seq<string>)
    requires x != ""
    ensures FirstChars([x] + t) == [x[0]] + FirstChars(t)
  {
    assert ([x] + t)[1..] == t;
  }

  /** Doubled spaces leave empty pieces, which add no letter. */
  lemma InitialsSkipEmptyPieces(a: string, b: string)
    requires a != "" && b != "" && ' ' !in a && ' ' !in b
    ensures Initials(Join([a, "", b], ' ')) == [a[0], b[0]]
  {
    var w := [a, "", b];
    SplitJoin(w, ' ');
    assert w[1..] == ["", b] && w[1..][1..] == [b] && [b][1..] == [];
    assert FirstChars([b]) == [b[0]];
    assert FirstChars(["", b]) == [b[0]];
    assert FirstChars(w) == [a[0]] + [b[0]];
  }
}
