/** Analytics events (client/src/hooks/useAnalytics.ts): the payloads sent
    and the one-page memory that stops a page view from being sent twice in
    a row. Delivery happens elsewhere and its failures are swallowed, so the
    model returns the payload to send, if any. */
module Analytics {
  import opened Common

  datatype Payload = Payload(eventType: string, eventData: map<string, string>, page: string)

  /** `value || fallback` on an optional string: a missing or empty value
      falls back. */
  function OrElse(value: Option<string>, fallback: string): (r: string)
    ensures value.Some? && value.value != "" ==> r == value.value
    ensures value.None? || value.value == "" ==> r == fallback
  {
    if value.Some? && value.value != "" then value.value else fallback
  }

  /** `trackEvent(options)` at the current `location`: the event data
      defaults to `{}` and the page to the location. */
  function TrackEvent(eventType: string, eventData: Option<map<string, string>>, page: Option<string>, location: string): (p: Payload)
    ensures p.eventType == eventType
    ensures eventData.None? ==> p.eventData == map[]
    ensures eventData.Some? ==> p.eventData == eventData.value
    ensures p.page == OrElse(page, location)
  {
    Payload(eventType, if eventData.Some? then eventData.value else map[], OrElse(page, location))
  }

  /** The hook's memory: the last page a view was tracked for, `""` at
      first. */
  const NothingTracked := ""

  /** `trackPageView(page)` at `location`: nothing is sent for the page just
      tracked; otherwise the page is remembered first and a `page_view` for
      it is sent. */
  function TrackPageView(last: string, page: Option<string>, location: string): (r: (string, Option<Payload>))
    ensures r.0 == OrElse(page, location)
    ensures r.1.None? <==> last == OrElse(page, location)
    ensures r.1.Some? ==> r.1.value == Payload("page_view", map["path" := r.0], r.0)
  {
    var target := OrElse(page, location);
    if last == target then (last, None)
    else (target, Some(Payload("page_view", map["path" := target], target)))
  }

  /** A page view is the general event with type `page_view`, the path as
      its data and the page set explicitly. */
  lemma PageViewIsTrackEvent(last: string, page: Option<string>, location: string)
    ensures var (target, sent) := TrackPageView(last, page, location);
            sent.Some? ==> sent.value == TrackEvent("page_view", Some(map["path" := target]), Some(target), location)
  {
  }

  /** With nothing but a type, an event carries empty data and the current
      location. */
  lemma BareEventDefaults(eventType: string, location: string)
    ensures TrackEvent(eventType, None, None, location) == Payload(eventType, map[], location)
    ensures TrackEvent(eventType, Some(map[]), Some(""), location) == TrackEvent(eventType, None, None, location)
  {
  }

  /** A second call for the same page sends nothing, whatever became of the
      first send. */
  lemma NoImmediateResend(last: string, page: Option<string>, location: string)
    ensures TrackPageView(TrackPageView(last, page, location).0, page, location).1 == None
  {
  }

  /** The pages whose views are sent when the location runs through
      `pages`, starting from the memory `last`, and the final memory. */
  function SentViews(last: string, pages: seq<string>): (r: (string, seq<string>))
    ensures |r.1| <= |pages|
    ensures r.0 == if |pages| == 0 then last else pages[|pages| - 1]
    ensures |r.1| > 0 ==> r.1[0] != last && r.1[|r.1| - 1] == r.0
    ensures |r.1| == 0 ==> r.0 == last
    ensures forall i :: 0 < i < |r.1| ==> r.1[i - 1] != r.1[i]
    ensures forall i :: 0 <= i < |r.1| ==> r.1[i] in pages
    decreases |pages|
  {
    if |pages| == 0 then (last, [])
    else
      var step := TrackPageView(last, Some(pages[0]), pages[0]);
      var rest := SentViews(step.0, pages[1..]);
      assert forall i :: 0 <= i < |rest.1| ==> rest.1[i] in pages by {
        forall i | 0 <= i < |rest.1| ensures rest.1[i] in pages {
          assert rest.1[i] in pages[1..];
        }
      }
      if step.1.Some? then (rest.0, [step.0] + rest.1) else (rest.0, rest.1)
  }

  /** Every change of page is sent and nothing else is: with each page
      differing from the one before, every page is sent in order. */
  lemma {:induction false} DistinctStepsAllSent(last: string, pages: seq<string>)
    requires |pages| > 0 ==> pages[0] != last
    requires forall i :: 0 < i < |pages| ==> pages[i - 1] != pages[i]
    ensures SentViews(last, pages).1 == pages
    decreases |pages|
  {
    if |pages| > 0 {
      var tail := pages[1..];
      assert forall i :: 0 < i < |tail| ==> tail[i - 1] != tail[i] by {
        forall i | 0 < i < |tail| ensures tail[i - 1] != tail[i] {
          assert tail[i - 1] == pages[i] && tail[i] == pages[i + 1];
        }
      }
      DistinctStepsAllSent(pages[0], tail);
      SentStep(last, pages);
      ConsTail(pages);
    }
  }

  /** A new page is sent, then the rest are followed from there. */
  lemma SentStep(last: string, pages: seq<string>)
    requires |pages| > 0 && pages[0] != last
    ensures SentViews(last, pages).1 == [pages[0]] + SentViews(pages[0], pages[1..]).1
  {
  }

  /** Staying on one page sends at most one view. */
  lemma {:induction false} RepeatsSendOnce(last: string, page: string, n: nat)
    ensures |SentViews(last, seq(n, _ => page)).1| <= 1
    decreases n
  {
    if n > 0 {
      var pages := seq(n, _ => page);
      assert pages[1..] == seq(n - 1, _ => page);
      RepeatsSendNone(page, n - 1);
    }
  }

  lemma {:induction false} RepeatsSendNone(page: string, n: nat)
    ensures SentViews(page, seq(n, _ => page)).1 == []
    decreases n
  {
    if n > 0 {
      var pages := seq(n, _ => page);
      assert pages[1..] == seq(n - 1, _ => page);
      RepeatsSendNone(page, n - 1);
    }
  }
}
