# STREX marketing site: the client logic as pure transitions

This project models the logic of the STREX marketing site's browser client
in Dafny. That logic is the React hooks, the utility helpers and the rules
buried in pages and components. Each hook's state (`useState`, the
browser's `localStorage`) becomes an explicit value, and each operation
becomes a pure function from the old value to the new one. Clock readings
are parameters. Where the source reads the clock twice, `Date.now()` for an
id and then `new Date()` for a time, the model takes two separate readings
(`Common.ClockReadings`). Nothing ties the two together.

Modules, one per concept:

- `Common`: `Option`/`Result`, the list operations JavaScript code leans on (`filter`, `slice`, `find`, `split`, `join`), and the decimal rendering of a clock value.
- `Text`: JavaScript's `\s` class, ASCII lower-casing, run replacement (`replace(/p+/g, c)`), `trim` and `includes`.
- `Entities`: the five record kinds kept in the browser store and their shallow-merge patches.
- `LocalStorage`: the one stored document with five collections; the five collection hooks' add, update, remove and mark-read.
- `UndoRedo`: the past/present/future history.
- `ActivityLog`: the newest-first log, capped at 50 entries.
- `BulkSelect`: the id-set selection over a list.
- `Slug`: `generateSlug` and the admin page's case-study slug.
- `Helpers`: `validateEmail`, `reorderItems`, `filterByTags`, `calculateStats`, `duplicateItem`, the reading time and the scheduled-publish countdown.
- `MarkdownEditor`: the toolbar's wrap-and-select.
- `ContactSchema`: the contact form's field rules.
- `Auth`: who is signed in, sign-out, and the admin page's gate.
- `Analytics`: event payloads and page-view de-duplication.
- `Blog`: the listing's search and category filter.
- `Admin`: the dashboard's unread count, creation forms and toggles.
- `Catalogue`: the course and case-study detail lookups and the home page's course, case-study and testimonial sections.

## Model

| member | source | states |
|---|---|---|
| UndoRedo.CanStepIffMoves | client/src/hooks/useUndoRedo.ts:16-17 | `canUndo` and `canRedo` hold exactly when the step would change the history |
| UndoRedo.Init | client/src/hooks/useUndoRedo.ts:10-14 | a fresh history holds the initial value with nothing to undo or redo |
| UndoRedo.Push | client/src/hooks/useUndoRedo.ts:19-24 | the old present joins the end of the past, the new value is present, the future is emptied; undo becomes possible and redo impossible |
| UndoRedo.Undo | client/src/hooks/useUndoRedo.ts:27-36 | with no past the history is unchanged; otherwise the last past value becomes present and the old present heads the future; the whole timeline is unchanged |
| UndoRedo.Redo | client/src/hooks/useUndoRedo.ts:40-49 | with no future the history is unchanged; otherwise the first future value becomes present and the old present ends the past; the timeline is unchanged |
| UndoRedo.UndoRedoPreserveLength | client/src/hooks/useUndoRedo.ts:27-49 | undo and redo keep past + 1 + future the same length |
| UndoRedo.RedoUndo | client/src/hooks/useUndoRedo.ts:27-49 | when undo is possible, redo after undo gives back the history |
| UndoRedo.UndoRedo | client/src/hooks/useUndoRedo.ts:27-49 | when redo is possible, undo after redo gives back the history |
| UndoRedo.UndoAll | client/src/hooks/useUndoRedo.ts:27-36 | undoing as often as there is past reaches the first value with the timeline intact |
| UndoRedo.Scenario | client/src/hooks/useUndoRedo.ts:16-49 | a worked sequence: undo steps back through pushed values, redo replays, and a push after an undo discards the redo branch |
| ActivityLog.Stamp | client/src/hooks/useActivityLog.ts:32-37 | the entry copies kind, target and title from the caller; its id is the `Date.now()` reading in decimal and reads back as that reading; its timestamp is the separate `new Date()` reading |
| ActivityLog.Prepend | client/src/hooks/useActivityLog.ts:38 | the new entry is first, the older entries follow in order, and the list is cut at 50 |
| ActivityLog.AddActivity | client/src/hooks/useActivityLog.ts:32-41 | the new entry is at index 0; the log never exceeds 50; below 50 nothing is lost; at 50 exactly the oldest entry drops; the stored log is the new list |
| ActivityLog.ClearActivities | client/src/hooks/useActivityLog.ts:43-46 | the log is empty and the stored key is removed |
| ActivityLog.Load | client/src/hooks/useActivityLog.ts:17-29 | stored entries are loaded as they are; a missing or unparseable value leaves the log empty instead of failing |
| ActivityLog.AddThenReload | client/src/hooks/useActivityLog.ts:38-40 | reloading after an add gives the same log |
| ActivityLog.AddAllKeepsNewest | client/src/hooks/useActivityLog.ts:38 | after any run of adds the log is the 50 newest entries, newest first |
| LocalStorage.Put | client/src/hooks/useLocalStorage.ts:116 | writing a collection sets that key of the document and no other |
| LocalStorage.SaveData | client/src/hooks/useLocalStorage.ts:107-118 | with a parseable document only the given collection changes; with nothing stored the other four start empty; unparseable text is an error, because the parse throws |
| LocalStorage.LoadAll | client/src/hooks/useLocalStorage.ts:82-103 | the whole-document loader keeps its empty default when nothing is stored or the text does not parse |
| LocalStorage.LoadCollection | client/src/hooks/useLocalStorage.ts:127-133 | a collection loader reads its key, gives an empty list with nothing stored, and fails on unparseable text because it catches nothing |
| LocalStorage.SaveThenLoad | client/src/hooks/useLocalStorage.ts:107-133 | loading the key just written gives the written collection, and every other key reads as before |
| LocalStorage.AssignedId | client/src/hooks/useLocalStorage.ts:136 | an added record keeps a non-empty id and otherwise gets the clock in decimal, never an empty id |
| LocalStorage.Append | client/src/hooks/useLocalStorage.ts:136 | one record is added at the end; earlier records are unchanged and in order |
| LocalStorage.UpdateWhere | client/src/hooks/useLocalStorage.ts:145 | the length is kept; every record with the id is merged with the patch; every other record is untouched |
| LocalStorage.UpdateAbsent | client/src/hooks/useLocalStorage.ts:145 | updating an id nobody carries changes nothing |
| LocalStorage.RemoveWhere | client/src/hooks/useLocalStorage.ts:154 | every record with the id goes; the others stay, in order, each as many times as before, and nothing is added |
| LocalStorage.RemoveIdempotent | client/src/hooks/useLocalStorage.ts:154 | removing twice is removing once |
| LocalStorage.RemoveAbsent | client/src/hooks/useLocalStorage.ts:154 | removing an id nobody carries changes nothing |
| LocalStorage.AppendThenFind | client/src/hooks/useLocalStorage.ts:136 | after an add, a lookup of the assigned id finds the added record if the id was new |
| LocalStorage.RemoveThenFind | client/src/hooks/useLocalStorage.ts:154 | after a remove, a lookup of the id finds nothing |
| LocalStorage.Commit | client/src/hooks/useLocalStorage.ts:137-141 | the hook's list is the new list and the write-back replaces only the hook's collection |
| LocalStorage.AddPost | client/src/hooks/useLocalStorage.ts:135-142 | the post is appended with its id kept or assigned; only the blog collection is written |
| LocalStorage.UpdatePost | client/src/hooks/useLocalStorage.ts:144-151 | posts with the id are merged with the patch, others untouched; only the blog collection is written |
| LocalStorage.DeletePost | client/src/hooks/useLocalStorage.ts:153-160 | posts with the id are gone; the others stay in order, each as many times as before; only the blog collection is written |
| LocalStorage.AddTestimonial | client/src/hooks/useLocalStorage.ts:177-184 | append with id kept or assigned; only the testimonial collection is written |
| LocalStorage.UpdateTestimonial | client/src/hooks/useLocalStorage.ts:186-193 | merge on the id, others untouched; only the testimonial collection is written |
| LocalStorage.RemoveTestimonial | client/src/hooks/useLocalStorage.ts:195-202 | records with the id are gone; the others stay in order, each as many times as before; only the testimonial collection is written |
| LocalStorage.AddCaseStudy | client/src/hooks/useLocalStorage.ts:219-226 | append with id kept or assigned; only the case-study collection is written |
| LocalStorage.UpdateCaseStudy | client/src/hooks/useLocalStorage.ts:228-235 | merge on the id, others untouched; only the case-study collection is written |
| LocalStorage.RemoveCaseStudy | client/src/hooks/useLocalStorage.ts:237-244 | records with the id are gone; the others stay in order, each as many times as before; only the case-study collection is written |
| LocalStorage.AddCourse | client/src/hooks/useLocalStorage.ts:261-268 | append with id kept or assigned; only the course collection is written |
| LocalStorage.UpdateCourse | client/src/hooks/useLocalStorage.ts:270-277 | merge on the id, others untouched; only the course collection is written |
| LocalStorage.RemoveCourse | client/src/hooks/useLocalStorage.ts:279-286 | records with the id are gone; the others stay in order, each as many times as before; only the course collection is written |
| LocalStorage.AddContact | client/src/hooks/useLocalStorage.ts:303-310 | append with id kept or assigned; only the contact collection is written |
| LocalStorage.MarkReadList | client/src/hooks/useLocalStorage.ts:313 | the length is kept; a contact is read afterwards iff it was read before or carries the id; no other field changes |
| LocalStorage.MarkReadIdempotent | client/src/hooks/useLocalStorage.ts:313 | marking read twice is marking read once |
| LocalStorage.MarkRead | client/src/hooks/useLocalStorage.ts:312-319 | matching contacts get `isRead` set, others are untouched; only the contact collection is written |
| Entities.MergePostLaws | client/src/hooks/useLocalStorage.ts:145 | the shallow merge is idempotent and the empty patch changes nothing |
| Entities.PublishedPatchChangesOnlyPublished | client/src/pages/Admin.tsx:182 | the `{ published }` patch changes that field alone |
| Entities.FeaturedPatchesChangeOnlyFeatured | client/src/pages/Admin.tsx:388 | the `{ featured }` patch changes that field alone |
| BulkSelect.ItemIds | client/src/hooks/useBulkSelect.ts:19 | the id set holds exactly the ids of the items |
| BulkSelect.ToggleSelect | client/src/hooks/useBulkSelect.ts:6-14 | the id's membership flips and every other id keeps its membership |
| BulkSelect.ToggleTwice | client/src/hooks/useBulkSelect.ts:6-14 | toggling the same id twice restores the selection |
| BulkSelect.ToggleSelectAll | client/src/hooks/useBulkSelect.ts:16-22 | when the selection's size equals the item count it is cleared, otherwise it becomes exactly the item ids |
| BulkSelect.GetSelected | client/src/hooks/useBulkSelect.ts:24 | the selected items in list order: an order-preserving subsequence holding exactly the items whose id is selected, each as many times as in the list |
| BulkSelect.ClearSelection | client/src/hooks/useBulkSelect.ts:26 | the cleared selection is empty |
| BulkSelect.SelectedIffReturned | client/src/hooks/useBulkSelect.ts:24-28 | `isSelected` holds of an item's id iff `getSelected` returns that item |
| BulkSelect.SelectCountIsSelectedRecords | client/src/hooks/useBulkSelect.ts:24-37 | for distinct ids and a selection drawn from them, `selectCount` is the number of items `getSelected` returns |
| BulkSelect.ClearSelectsNothing | client/src/hooks/useBulkSelect.ts:26-37 | after clearing, the count is zero, no id is selected and no item is returned |
| BulkSelect.SelectAllGetsAll | client/src/hooks/useBulkSelect.ts:24 | with every item id selected, the selected items are the whole list |
| BulkSelect.DistinctIdsCount | client/src/hooks/useBulkSelect.ts:19 | with distinct ids, there are as many ids as items |
| BulkSelect.AllSelectedMeansEverySelected | client/src/hooks/useBulkSelect.ts:38 | for a selection drawn from distinct item ids, "all selected" holds iff the list is non-empty and every item is selected |
| BulkSelect.ToggleAllThenAgain | client/src/hooks/useBulkSelect.ts:16-38 | select-all makes "all selected" true for a non-empty list, and pressing it again clears the selection |
| BulkSelect.StaleSelectionLooksComplete | client/src/hooks/useBulkSelect.ts:38 | "all selected" compares sizes only: a stale id makes a list count as all selected while none of its items is |
| Text.ReplaceRuns | client/src/utils/helpers.ts:24-25 | every run of matching characters becomes one `c`: the result is no longer, each character is `c` or an input character outside the runs, and when `c` itself matches no two matching characters are adjacent |
| Text.ReplaceRunsKeepsUntouched | client/src/utils/helpers.ts:24-25 | the characters that neither match nor equal `c` are kept exactly, in order |
| Text.ReplaceRunsAppend | client/src/utils/helpers.ts:24-25 | two pieces whose boundary does not cut a run are replaced piece by piece |
| Text.ReplaceRunsAroundGap | client/src/utils/helpers.ts:24-25 | a run between two pieces becomes one `c` between their results |
| Slug.GenerateSlug | client/src/utils/helpers.ts:20-27 | the slug has only `a-z 0-9 _ -`, no white space, no two dashes in a row, and is no longer than the title; leaving out its dashes gives exactly the lowered title's word characters, in order |
| Slug.SlugWordChars | client/src/utils/helpers.ts:20-27 | the dash runs the slug adds or collapses are the only difference from the lowered title's word characters |
| Slug.GenerateSlugIdempotent | client/src/utils/helpers.ts:20-27 | slugging a slug changes nothing |
| Slug.SlugFixedPoints | client/src/utils/helpers.ts:20-27 | a string is its own slug iff it is a well-formed slug |
| Slug.GenerateSlugUntrimmed | client/src/utils/helpers.ts:26 | the final `trim` never removes anything, since white space is gone by then |
| Slug.GenerateSlugKeepsLeadingDash | client/src/utils/helpers.ts:20-27 | a title starting with white space gives a slug starting with a dash |
| Slug.GenerateSlugKeepsTrailingDash | client/src/utils/helpers.ts:20-27 | a title ending with white space gives a slug ending with a dash |
| Slug.CaseStudySlug | client/src/pages/Admin.tsx:536 | the case-study slug has no white space and no capitals; leaving out its dashes gives exactly the lowered title's characters other than white space and dashes, in order |
| Slug.CaseStudySlugOfWord | client/src/pages/Admin.tsx:536 | a title without white space becomes its lower-case form |
| Slug.CaseStudySlugJoinsParts | client/src/pages/Admin.tsx:536 | a white-space gap between two parts becomes exactly one dash between the parts' slugs, so the words keep their order and count |
| Slug.CaseStudySlugIdempotent | client/src/pages/Admin.tsx:536 | deriving the case-study slug of its own output changes nothing |
| Slug.CaseStudySlugKeepsPunctuation | client/src/pages/Admin.tsx:536 | punctuation survives in the case-study slug but not in `generateSlug`, so the two rules differ on such titles |
| Helpers.ValidateEmail | client/src/utils/helpers.ts:38-41 | an accepted address has no white space and exactly one `@` |
| Helpers.ValidateEmailMatchesPattern | client/src/utils/helpers.ts:39-40 | accepted iff the address reads `local@domain.tld`: each part non-empty, free of `@` and white space, with a dot inside the domain |
| Helpers.RemoveAt | client/src/utils/helpers.ts:89 | one element fewer, and the removed element is exactly what is missing |
| Helpers.InsertAt | client/src/utils/helpers.ts:90 | one element more, the inserted one at the index |
| Helpers.Move | client/src/utils/helpers.ts:87-90 | a permutation with the moved item at the normalised target index and the rest in their old order |
| Helpers.MoveBack | client/src/utils/helpers.ts:87-90 | moving the item back from its new place restores the list |
| Helpers.ReorderPosts | client/src/utils/helpers.ts:87-92 | for any source index: when its normalised value is inside the list, the item there moves to the target, every item's `orderIndex` becomes its position and no other field changes; otherwise nothing is removed and a bare `{ orderIndex }` record is inserted at the normalised target, the posts around it shifted |
| Helpers.ReorderKeepsPosts | client/src/utils/helpers.ts:87-92 | with positions forgotten, the result holds the same posts as many times each, plus the bare record when nothing was removed |
| Helpers.MapPreservesPermutation | client/src/utils/helpers.ts:92 | mapping (as `result.map` does) two permutations of one another gives permutations of one another |
| Helpers.FilterByTags | client/src/utils/helpers.ts:103-108 | no tags keeps the list; otherwise the order-preserving subsequence of exactly the items sharing a tag, each as many times as in the list |
| Helpers.FilterByTagsIdempotent | client/src/utils/helpers.ts:103-108 | filtering twice by the same tags is filtering once |
| Helpers.CalculateStats | client/src/utils/helpers.ts:94-101 | the loop computes the total, the published and favourite counts (each at most the total) and the view and like sums with missing values as 0 |
| Helpers.StatsAdditive | client/src/utils/helpers.ts:94-101 | the statistics of two lists joined are the sums of their statistics |
| Helpers.DuplicatePost | client/src/utils/helpers.ts:78-85 | only the id and title change; the id is the original id, then `-copy-`, then digits that read back as the clock value; the title is the original title followed by ` (Copy)` |
| Helpers.DuplicateIdsDistinct | client/src/utils/helpers.ts:78-85 | a copy's id differs from the original's, and copies made at different times differ |
| Helpers.WordCount | client/src/utils/helpers.ts:5 | the word count is never below one, since splitting blank text gives one piece |
| Helpers.WordCountAdds | client/src/utils/helpers.ts:5 | two texts separated by any white-space gap count as many words as the two counted apart |
| Helpers.WordCountIgnoresPadding | client/src/utils/helpers.ts:5 | white space before and after a text adds no word, since the text is trimmed first |
| Helpers.WordCountOfWords | client/src/utils/helpers.ts:5 | non-empty words without white space, joined by spaces, count as exactly as many words as there are |
| Helpers.JoinEnds | client/src/utils/helpers.ts:5 | such joined words neither begin nor end with white space |
| Helpers.ReadingTime | client/src/utils/helpers.ts:3-7 | at least one minute, and the ceiling of words over 200 |
| Helpers.BlankContentOneMinute | client/src/utils/helpers.ts:3-7 | blank or single-word content reads in one minute |
| Helpers.CountdownOf | client/src/utils/helpers.ts:115-129 | unset is no countdown; under a second is ready; otherwise the whole seconds split into days, hours under 24 and minutes under 60 |
| Helpers.ScheduledPublishTime | client/src/utils/helpers.ts:115-130 | empty text iff unscheduled; "Ready to publish" iff less than a second remains |
| Helpers.IsScheduledForLater | client/src/utils/helpers.ts:110-113 | a post scheduled for later always has a countdown; a scheduled post that is not later reads as ready |
| Helpers.ScheduledAgreesWithCountdown | client/src/utils/helpers.ts:110-121 | "scheduled for later" and the countdown agree except in the last second, where the countdown is already ready |
| Helpers.UnderAMinuteReadsZeroMinutes | client/src/utils/helpers.ts:125-129 | between one second and one minute ahead the text reads `0m` |
| MarkdownEditor.Substring | client/src/components/MarkdownEditor.tsx:18 | ends inside the text take the slice between them in either order; an end past the text counts as the text's end |
| MarkdownEditor.InsertMarkdown | client/src/components/MarkdownEditor.tsx:12-26 | the text is prefix + before + selection + after + suffix, its length grows by both markers, and the new selection covers exactly the old selected text |
| MarkdownEditor.UnwrapRestores | client/src/components/MarkdownEditor.tsx:19 | cutting the markers out of the result gives back the original text |
| MarkdownEditor.PrefixOnlyButtons | client/src/components/MarkdownEditor.tsx:52-66 | heading and list insert only a prefix; every other button also closes the selection |
| ContactSchema.ValidateContact | shared/schema.ts:15-23 | accepted iff name has 2+ characters, the email passes, subject has 5+ and message 10+; a rejection lists exactly the failing fields in field order |
| ContactSchema.CompanyIsOptional | shared/schema.ts:9 | the company field never affects acceptance |
| ContactSchema.ToSubmission | shared/schema.ts:5-18 | the stored row adds id and creation time to the input and loses nothing |
| ContactSchema.ContactExamples | shared/schema.ts:19-22 | an input at the minimum lengths is accepted, and one with a one-letter name, a two-letter subject and a five-letter message is rejected with exactly those three errors, in field order |
| Auth.ResolveAuth | client/src/hooks/useAuth.ts:7-25 | a parsed mock user wins, is not loading, and disables the server query; without one the server's user and loading flag are used; an unparseable mock throws; authenticated iff a user, admin iff that user's flag is true |
| Auth.MockOverridesServer | client/src/hooks/useAuth.ts:18 | with a mock user the server's answer makes no difference |
| Auth.AdminImpliesAuthenticated | client/src/hooks/useAuth.ts:23-24 | no one is admin without being authenticated |
| Auth.Logout | client/src/hooks/useAuth.ts:28-33 | the mock key is removed, every other key is kept, and the browser goes to `/` |
| Auth.LogoutLeavesServerOnly | client/src/hooks/useAuth.ts:28-33 | after sign-out only the server decides who is signed in |
| Auth.AdminGateAsWritten | client/src/pages/Admin.tsx:709-730 | the gate as written always shows the dashboard |
| Auth.AdminGateAsWrittenLetsEveryoneIn | client/src/pages/Admin.tsx:721 | a visitor nobody signed in as gets the dashboard |
| Auth.AdminGate | client/src/pages/Admin.tsx:721-743 | the corrected gate shows the dashboard iff a user is signed in |
| Auth.AdminGateAdmitsExactlySignedIn | client/src/pages/Admin.tsx:721-743 | with the corrected gate, dashboard iff authenticated, for mock and server sign-in alike |
| Analytics.TrackEvent | client/src/hooks/useAnalytics.ts:15-25 | event data defaults to an empty map, the page to the location |
| Analytics.PageViewIsTrackEvent | client/src/hooks/useAnalytics.ts:27-45 | a page view sent is the general event of type `page_view` with the path as data and the page given explicitly |
| Analytics.BareEventDefaults | client/src/hooks/useAnalytics.ts:15-25 | an event with only a type carries empty data and the location, the same as with empty data and an empty page |
| Analytics.TrackPageView | client/src/hooks/useAnalytics.ts:27-45 | nothing is sent iff the page equals the last tracked one; otherwise the page is remembered and a `page_view` with that path is sent |
| Analytics.NoImmediateResend | client/src/hooks/useAnalytics.ts:30-34 | a second call for the same page sends nothing, whatever became of the first send |
| Analytics.SentViews | client/src/hooks/useAnalytics.ts:27-49 | over a run of pages no two consecutive sends are equal, the first differs from the remembered page, and all sends are visited pages |
| Analytics.DistinctStepsAllSent | client/src/hooks/useAnalytics.ts:30-34 | when every page differs from the one before, every page is sent, in order |
| Analytics.RepeatsSendOnce | client/src/hooks/useAnalytics.ts:30-34 | staying on one page sends at most one view |
| Blog.FilteredPosts | client/src/pages/Blog.tsx:110-116 | nothing until posts arrive; then the order-preserving subsequence of exactly the posts whose title or excerpt contains the search, ignoring case, in the category |
| Blog.NoFilterShowsAll | client/src/pages/Blog.tsx:15 | an empty search with the "All" category shows every post |
| Blog.SearchIgnoresCase | client/src/pages/Blog.tsx:111-113 | searching the lower-cased text finds the same posts |
| Blog.CategoryNarrowsSearch | client/src/pages/Blog.tsx:114-115 | a category keeps exactly the search results of that category, in order |
| Blog.LongerSearchNarrows | client/src/pages/Blog.tsx:111-113 | typing more never brings back a post the shorter search excluded |
| Admin.UnreadCount | client/src/pages/Admin.tsx:87 | the unread count is the number of positions holding an unread contact: at most the number of contacts, and zero iff every contact is read |
| Admin.MarkReadLowersUnread | client/src/pages/Admin.tsx:87 | marking read lowers the unread count by exactly the unread contacts with that id |
| Admin.OpenOneMessage | client/src/pages/Admin.tsx:87 | opening an unread message with a unique id lowers the count by one; a read one leaves it |
| Admin.CreatePost | client/src/pages/Admin.tsx:159-171 | a new post is appended unpublished with the form's fields and no optional ones; its id is the `Date.now()` reading and its creation time the `new Date()` reading |
| Admin.CreatedPostIdIsClockReading | client/src/pages/Admin.tsx:161 | the id reads back as the `Date.now()` reading, so posts made at different `Date.now()` readings never share one, whatever `new Date()` read |
| Admin.CreateTestimonial | client/src/pages/Admin.tsx:371-385 | a new testimonial has no avatar, is not featured, and keeps the form's rating and texts; id and creation time come from the two clock readings |
| Admin.CreateCaseStudy | client/src/pages/Admin.tsx:532-548 | a new case study has the title's case-study slug, no cover, and is not featured; id and creation time come from the two clock readings |
| Admin.CreatedCaseStudySlugIsStable | client/src/pages/Admin.tsx:536 | the created slug is its own case-study slug |
| Admin.Features | client/src/pages/Admin.tsx:637 | an empty line gives no features; otherwise one piece more than commas, none holding a comma |
| Admin.FeaturesRoundTrip | client/src/pages/Admin.tsx:637 | joining the features with commas gives back the typed line, so nothing is trimmed or dropped |
| Admin.CreateCourse | client/src/pages/Admin.tsx:629-641 | a new course has category `course`, icon `Code2`, and exactly the features `Admin.Features` gives for the typed line (none for an empty line), which join back to that line |
| Admin.TogglePublish | client/src/pages/Admin.tsx:181-183 | posts with the id get the opposite of the given post's flag; nothing else changes |
| Admin.TogglePublishTwice | client/src/pages/Admin.tsx:181-183 | toggling publish twice on a post with a unique id restores the list |
| Admin.ToggleTestimonialFeatured | client/src/pages/Admin.tsx:387-389 | testimonials with the id get the opposite featured flag; nothing else changes |
| Admin.ToggleCaseStudyFeatured | client/src/pages/Admin.tsx:576 | case studies with the id get the opposite featured flag; nothing else changes |
| Admin.ToggleFeaturedTwice | client/src/pages/Admin.tsx:387-389 | featuring twice restores the testimonial list and the case-study list |
| Catalogue.LookupSpace | client/src/pages/CourseDetail.tsx:79 | the lookup list is always the built-in records followed by the stored ones; the emptiness guard changes nothing |
| Catalogue.Lookup | client/src/pages/CourseDetail.tsx:79-81 | not found iff no record carries the id; a built-in record shadows stored ones; otherwise the first stored match |
| Catalogue.IconShown | client/src/pages/CourseDetail.tsx:102 | a name among the icon map's six own keys is shown as is; any other name falls back to `GraduationCap` |
| Catalogue.FeatureOr | client/src/pages/CourseDetail.tsx:148-151 | a present non-empty feature is shown, otherwise the fallback |
| Catalogue.PriceLabel | client/src/pages/CourseDetail.tsx:197 | the label is `$` followed by the price, or by `Free` when the price is empty |
| Catalogue.CourseDetail | client/src/pages/CourseDetail.tsx:79-197 | "not found" iff no built-in or stored course has the id; otherwise a course with that id, its icon, level, duration and price fallbacks, and the badge always "All Levels" |
| Catalogue.DefaultCoursesAlwaysShown | client/src/pages/CourseDetail.tsx:79-81 | every built-in course opens under its id whatever is stored |
| Catalogue.StoredCourseShown | client/src/pages/CourseDetail.tsx:79-81 | a stored course opens when no built-in or earlier stored course has its id |
| Catalogue.BareCourseFallbacks | client/src/pages/CourseDetail.tsx:148-197 | a course with no price and no features shows `$Free`, "All Levels" and "Self-paced" |
| Catalogue.DisplayCourses | client/src/components/Courses.tsx:190 | stored courses replace the built-in list entirely; with none stored the built-in list is shown |
| Catalogue.CourseRouteId | client/src/App.tsx:31 | the route gives the one non-empty segment after `/courses/` |
| Catalogue.OpenCourse | client/src/App.tsx:31 | following an address opens the detail page for its segment, or nothing for another route |
| Catalogue.CourseLinkAsWritten | client/src/components/Courses.tsx:167 | the card link puts the slug in the address, `undefined` for stored courses |
| Catalogue.CourseLinksAsWrittenNeverResolve | client/src/components/Courses.tsx:167 | every card link as written lands on "Course not found" |
| Catalogue.CourseLink | client/src/components/Courses.tsx:167 | a link by id routes back to that id |
| Catalogue.CourseLinksResolve | client/src/pages/CourseDetail.tsx:81 | with links by id every card opens a course with the card's id |
| Catalogue.CaseStudyDetail | client/src/pages/CaseStudyDetail.tsx:42-46 | "not found" iff the id is neither built-in nor stored; the built-in ids `1` and `2` always give a built-in study; other ids give the first stored match |
| Catalogue.StoredCaseStudyShown | client/src/pages/CaseStudyDetail.tsx:42-44 | a stored study opens under a non-built-in id that no earlier study has |
| Catalogue.ShownCaseStudies | client/src/components/CaseStudies.tsx:132-156 | with none stored the built-in pair; with studies stored, the first four featured stored studies in stored order, as many as there are featured ones up to four |
| Catalogue.UnfeaturedStudyIgnored | client/src/components/CaseStudies.tsx:132-136 | a study that is not featured changes nothing in the section, wherever it is stored, while something else is stored |
| Catalogue.NothingFeaturedShowsNothing | client/src/components/CaseStudies.tsx:132-134 | with studies stored but none featured the section is empty |
| Catalogue.FeaturedStudiesInOrder | client/src/components/CaseStudies.tsx:132-156 | when every stored study is featured, the first four are shown in stored order |
| Catalogue.ShownTestimonials | client/src/components/Testimonials.tsx:114-140 | the first six stored testimonials, featured or not, or the built-in three while none is stored |
| Catalogue.Stars | client/src/components/Testimonials.tsx:61 | as many stars as the rating, none for a negative rating |
| Catalogue.Initials | client/src/components/Testimonials.tsx:74 | the initials are the first letters of the non-empty pieces between spaces, one per piece, in order, whatever the spacing; they hold no space and number at most one more than the spaces |
| Catalogue.InitialsOfWords | client/src/components/Testimonials.tsx:74 | for words joined by single spaces, the initials are the words' first letters in order |
| Catalogue.FirstCharsSkipsEmpty | client/src/components/Testimonials.tsx:74 | empty pieces contribute nothing: the letters are those of the non-empty pieces |
| Catalogue.InitialsSkipEmptyPieces | client/src/components/Testimonials.tsx:74 | a doubled space adds no letter |

## Left out

- The JSON text of the stored document and of the activity log is left out. The model keeps values and distinguishes only absent, parseable and unparseable text. React re-rendering and the `localStorage` calls themselves are left out too.
- `Text.Lower`: lower-cases ASCII `A`-`Z` only, while JavaScript's `toLowerCase` maps other letters too. In `generateSlug` the `[^\w\s-]` filter (client/src/utils/helpers.ts:23) then removes every non-ASCII letter, so `É` gives the same result in both. The Kelvin sign (U+212A) does differ there: JavaScript lower-cases it to an ASCII `k` and keeps it, and the model removes it. The case-study slug and the blog search filter nothing, so there `É` stays `É` in the model, where the source gives `é`.
- `ContactSchema.ValidateContact`: counts characters. zod's `min` counts UTF-16 code units, so a character outside the basic plane counts twice in the source. The email check is a parameter, because its rules live in zod.
- `Helpers.WordCount`: its own contract states only that the count is at least one. The count itself is stated by `Helpers.WordCountAdds`, `Helpers.WordCountOfWords` and `Helpers.WordCountIgnoresPadding`, which together cover every text made of words, white-space gaps and white-space edges, and `Helpers.BlankContentOneMinute` gives blank text a count of one.
- `Helpers.Move`: requires the source index to be in range; it is the in-range half of `Helpers.ReorderPosts`, which models the out-of-range case itself. Fractional and non-numeric indices are not modelled.
- `LocalStorage.SaveData`: stored text that parses but is not a document with the five lists is not modelled, and neither is it for `LocalStorage.LoadCollection`. Only `null` makes the read at client/src/hooks/useLocalStorage.ts:131 throw; a parsed number, string or boolean reads as an empty list there through `|| []`. The write at :140 throws for `null` and for every other primitive, because module code runs in strict mode. A document lacking a key reads as an empty list through `|| []` and gets the key on the next write.
- `Catalogue.IconShown`: looks the name up among the icon map's own six keys only. `iconMap[icon]` (client/src/pages/CourseDetail.tsx:102, client/src/components/Courses.tsx:108) is a lookup on a plain object, so it also finds names every object inherits, such as `toString`, `constructor`, `valueOf`, `hasOwnProperty` and `__proto__`. Those give a truthy value that is not an icon and does not fall back to `GraduationCap`; such names are not modelled. The admin form only ever stores `Code2` (client/src/pages/Admin.tsx:636), so they arrive only through hand-edited stored data.
- `Catalogue.Initials`: works on characters. `n[0]` in the source takes one UTF-16 code unit, so a name piece starting outside the basic plane gives half a surrogate pair.
- `Helpers.CountdownOf`: takes the scheduled time as a number of milliseconds. A date string, an invalid date (NaN) or a non-number value is not modelled.
- `Auth.ResolveAuth`: models `isAdmin` only as an optional boolean. A non-boolean value passed through `??` is not modelled.
- `Analytics.TrackEvent`: the request delivery and its swallowed failure are left out; the model returns the payload.
- The markdown editor's DOM work (`querySelector`, focus, `setTimeout`) is left out; only the new text and selection are computed.
- The built-in catalogue records carry their ids, titles, slugs, icons, features, prices and flags; their description and narrative texts are left out as pure display text.
- The server side (storage wrappers, routes, static serving, build scripts) is left out: it is I/O and library plumbing.
- `formatBytes`, `formatDate`, `validateUrl`, `validateJSON`, `exportToJSON` and `getShortcut` are left out: they rest on floating point, locale formatting, the URL constructor, the DOM or pure string formatting.
- The login page's credential check and its network call are left out.

## Findings

| source | as written | input that shows it | evidently intended | confidence | as-written member | corrected member |
|---|---|---|---|---|---|---|
| client/src/pages/Admin.tsx:709-730 | `const user = useAuth()` binds the whole result object, and `if (!user)` tests that object, which is always truthy | no mock user stored and the server reports no user (`data: null`) | show the "Unauthorized" prompt unless someone is signed in, since the page goes on to read `user.email` | high, not executed | Auth.AdminGateAsWritten (shown by Auth.AdminGateAsWrittenLetsEveryoneIn) | Auth.AdminGate (proved by Auth.AdminGateAdmitsExactlySignedIn) |
| client/src/components/Courses.tsx:167 | the "View Course" link is `/courses/` + slug, but `/courses/:id` resolves the segment as an id (client/src/pages/CourseDetail.tsx:81) | nothing stored; the first card links to `/courses/complete-web-development-bootcamp`, and no course has that id | link by the id, so that the card opens its own course | high, not executed | Catalogue.CourseLinkAsWritten (shown by Catalogue.CourseLinksAsWrittenNeverResolve) | Catalogue.CourseLink (proved by Catalogue.CourseLinksResolve) |
