/** The bounded activity log (client/src/hooks/useActivityLog.ts): entries
    newest first, at most `MaxActivities` of them, mirrored into one storage
    key. */
module ActivityLog {
  import opened Common

  datatype ActivityType = Create | Update | Delete | Publish | Import | Export

  datatype Target = BlogTarget | ContactTarget | TestimonialTarget | CaseStudyTarget | CourseTarget

  /** `ActivityLog`: `id` and `timestamp` are filled in by the log itself. */
  datatype Activity = Activity(id: string, kind: ActivityType, target: Target, title: string, timestamp: nat)

  /** `Omit<ActivityLog, 'id' | 'timestamp'>`: what a caller supplies. */
  datatype Draft = Draft(kind: ActivityType, target: Target, title: string)

  /** `MAX_ACTIVITIES`. */
  const MaxActivities: nat := 50

  /** What the storage key holds: nothing, text that parses to a list of
      entries, or text that does not parse. */
  datatype StoredLog = NothingStored | StoredEntries(entries: seq<Activity>) | Unparseable

  /** The hook's state: the entries shown and the stored copy. */
  datatype LogState = LogState(entries: seq<Activity>, stored: StoredLog)

  /** The entry `addActivity` builds from a draft: the id is the
      `Date.now()` reading in decimal and the timestamp the later
      `new Date()` reading. */
  function Stamp(d: Draft, t: ClockReadings): (a: Activity)
    ensures a.kind == d.kind && a.target == d.target && a.title == d.title
    ensures a.timestamp == t.date && a.id == DecimalString(t.now) && ParseDecimal(a.id) == t.now
  {
    DecimalRoundTrip(t.now);
    Activity(DecimalString(t.now), d.kind, d.target, d.title, t.date)
  }

  /** `[newActivity, ...activities].slice(0, MAX_ACTIVITIES)`. */
  function Prepend(entries: seq<Activity>, a: Activity): (r: seq<Activity>)
    ensures |r| == if |entries| < MaxActivities then |entries| + 1 else MaxActivities
    ensures r[0] == a
    ensures r[1..] == entries[..|r| - 1]
  {
    Take([a] + entries, MaxActivities)
  }

  /** `addActivity(draft)`: the new entry goes first, the oldest beyond the
      cap fall off, and the result is written to storage. */
  function AddActivity(s: LogState, d: Draft, t: ClockReadings): (r: LogState)
    ensures |r.entries| == if |s.entries| < MaxActivities then |s.entries| + 1 else MaxActivities
    ensures |r.entries| <= MaxActivities
    ensures r.entries[0] == Stamp(d, t)
    ensures r.entries[1..] == s.entries[..|r.entries| - 1]
    ensures |s.entries| < MaxActivities ==> r.entries[1..] == s.entries
    ensures |s.entries| == MaxActivities ==> r.entries[1..] == s.entries[..|s.entries| - 1]
    ensures r.stored == StoredEntries(r.entries)
  {
    var e := Prepend(s.entries, Stamp(d, t));
    LogState(e, StoredEntries(e))
  }

  /** `clearActivities()`: nothing shown, the storage key removed. */
  function ClearActivities(s: LogState): (r: LogState)
    ensures r.entries == [] && r.stored == NothingStored
  {
    LogState([], NothingStored)
  }

  /** The mount effect: a parse failure is caught and the log stays empty. */
  function Load(stored: StoredLog): (r: LogState)
    ensures r.stored == stored
    ensures stored.StoredEntries? ==> r.entries == stored.entries
    ensures !stored.StoredEntries? ==> r.entries == []
  {
    match stored
    case StoredEntries(es) => LogState(es, stored)
    case _ => LogState([], stored)
  }

  /** What is written is what the next mount shows. */
  lemma AddThenReload(s: LogState, d: Draft, t: ClockReadings)
    ensures Load(AddActivity(s, d, t).stored) == AddActivity(s, d, t)
  {
  }

  /** A sequence of additions, applied oldest first. */
  function AddAll(s: LogState, ds: seq<Draft>, clock: seq<ClockReadings>): LogState
    requires |clock| == |ds|
    decreases |ds|
  {
    if |ds| == 0 then s
    else AddAll(AddActivity(s, ds[0], clock[0]), ds[1..], clock[1..])
  }

  /** The entries stamped for `ds`, newest first. */
  function Stamped(ds: seq<Draft>, clock: seq<ClockReadings>): (r: seq<Activity>)
    requires |clock| == |ds|
    ensures |r| == |ds|
    decreases |ds|
  {
    if |ds| == 0 then []
    else Stamped(ds[1..], clock[1..]) + [Stamp(ds[0], clock[0])]
  }

  /** Cutting to `n` before appending to something in front and cutting to
      `n` again is the same as cutting once. */
  lemma TakeAfterPrefix<T>(y: seq<T>, z: seq<T>, n: nat)
    ensures Take(y + Take(z, n), n) == Take(y + z, n)
  {
    var l := Take(y + Take(z, n), n);
    var m := Take(y + z, n);
    assert |l| == |m|;
    forall i | 0 <= i < |l| ensures l[i] == m[i] {
      if i >= |y| {
        assert (y + Take(z, n))[i] == Take(z, n)[i - |y|];
      }
    }
  }

  /** However many additions happen, the log shows exactly the most recent
      `MaxActivities` entries, newest first, followed by as many of the
      entries it started with as still fit. */
  lemma {:induction false} AddAllKeepsNewest(s: LogState, ds: seq<Draft>, clock: seq<ClockReadings>)
    requires |clock| == |ds| && |s.entries| <= MaxActivities
    ensures AddAll(s, ds, clock).entries == Take(Stamped(ds, clock) + s.entries, MaxActivities)
    decreases |ds|
  {
    if |ds| == 0 {
      assert Stamped(ds, clock) + s.entries == s.entries;
    } else {
      var a := Stamp(ds[0], clock[0]);
      var s' := AddActivity(s, ds[0], clock[0]);
      var y := Stamped(ds[1..], clock[1..]);
      AddAllKeepsNewest(s', ds[1..], clock[1..]);
      AddIsPrepend(s, ds[0], clock[0]);
      TakeAfterPrefix(y, [a] + s.entries, MaxActivities);
      AppendAssoc(y, [a], s.entries);
    }
  }

  lemma AddIsPrepend(s: LogState, d: Draft, t: ClockReadings)
    ensures AddActivity(s, d, t).entries == Take([Stamp(d, t)] + s.entries, MaxActivities)
  {
  }
}
