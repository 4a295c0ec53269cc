/**
 * The consolidation loop (defcon.py:159-196) on one track list, as a
 * specification: which slots emit an event, and the event each one emits.
 * A slot emits unless it is an empty room or the next slot holds a
 * presentation with the same title; the start looks back one slot and the
 * end looks ahead one slot.
 */
module Consolidation {
  import opened Wrappers
  import opened Dates
  import opened Extraction

  /** A presentation as the loop reads it, `details` included (None when
      linking never set it). */
  datatype Entry = Entry(start: int, title: string, details: Option<string>)

  /** One calendar event: LOCATION, SUMMARY, DESCRIPTION, DTSTART, DTEND. */
  datatype Event = Event(location: Label, summary: string, description: Option<string>, dtstart: int, dtend: int)

  /** `sched[i]` exists, is a presentation, and has this title. */
  predicate HasTitle(s: seq<Option<Entry>>, i: int, title: string) {
    0 <= i < |s| && s[i].Some? && s[i].value.title == title
  }

  /** Index `i` emits an event (lines 164-170). */
  predicate Emits(s: seq<Option<Entry>>, i: nat)
    requires i < |s|
  {
    s[i].Some? && !HasTitle(s, i + 1, s[i].value.title)
  }

  /** The event's start: the previous slot's when it has the same title (lines 172, 183-187). */
  function StartAt(s: seq<Option<Entry>>, i: nat): int
    requires i < |s| && s[i].Some?
  {
    if i > 0 && HasTitle(s, i - 1, s[i].value.title) then s[i - 1].value.start else s[i].value.start
  }

  /** The event's end: the next slot's start if there is a next slot that is
      not None, else an hour after `start` (lines 168, 189-194). */
  function EndAt(s: seq<Option<Entry>>, i: nat, start: int): int
    requires i < |s|
  {
    if i + 1 < |s| && s[i + 1].Some? then s[i + 1].value.start else start + Hour
  }

  /** The DESCRIPTION, added only when `details` is set and non-empty (lines 177-181). */
  function Description(details: Option<string>): (r: Option<string>)
    ensures r.Some? <==> details.Some? && details.value != ""
    ensures r.Some? ==> r == details
  {
    if details.Some? && details.value != "" then details else None
  }

  function EventAt(track: Label, s: seq<Option<Entry>>, i: nat): Event
    requires i < |s| && s[i].Some?
  {
    var start := StartAt(s, i);
    Event(track, s[i].value.title, Description(s[i].value.details), start, EndAt(s, i, start))
  }

  /** The events the loop adds for the slots `s[..n]`, in order. */
  function TrackEvents(track: Label, s: seq<Option<Entry>>, n: nat): seq<Event>
    requires n <= |s|
  {
    if n == 0 then []
    else TrackEvents(track, s, n - 1) + (if Emits(s, n - 1) then [EventAt(track, s, n - 1)] else [])
  }

  /** The indices among the first `n` that emit, in increasing order. */
  function EmitIndices(s: seq<Option<Entry>>, n: nat): (r: seq<nat>)
    requires n <= |s|
    ensures forall j | 0 <= j < |r| :: r[j] < n
  {
    if n == 0 then []
    else EmitIndices(s, n - 1) + (if Emits(s, n - 1) then [n - 1] else [])
  }

  /** The emitting indices are increasing, and an index among the first `n`
      is listed exactly when it emits. */
  lemma {:induction false} EmitIndicesExact(s: seq<Option<Entry>>, n: nat)
    requires n <= |s|
    ensures var idx := EmitIndices(s, n);
      && (forall j | 0 <= j < |idx| - 1 :: idx[j] < idx[j + 1])
      && (forall i | 0 <= i < n :: i in idx <==> Emits(s, i))
  {
    if n > 0 {
      EmitIndicesExact(s, n - 1);
      var idx := EmitIndices(s, n - 1);
      if Emits(s, n - 1) {
        var idx' := idx + [n - 1];
        assert EmitIndices(s, n) == idx';
        assert forall j | 0 <= j < |idx| :: idx'[j] == idx[j];
        assert forall i | 0 <= i < n - 1 :: i in idx' <==> i in idx;
      } else {
        assert EmitIndices(s, n) == idx;
        assert n - 1 !in idx;
      }
    }
  }

  /** The events of a track are those of its emitting indices, one each, in
      index order; an index emits exactly when its slot is a presentation and
      the next slot is not a presentation with the same title. */
  lemma {:induction false} EventsOfEmittingSlots(track: Label, s: seq<Option<Entry>>, n: nat)
    requires n <= |s|
    ensures var idx := EmitIndices(s, n);
      && |TrackEvents(track, s, n)| == |idx|
      && (forall j | 0 <= j < |idx| :: idx[j] < |s| && s[idx[j]].Some? && TrackEvents(track, s, n)[j] == EventAt(track, s, idx[j]))
      && (forall j | 0 <= j < |idx| - 1 :: idx[j] < idx[j + 1])
      && (forall i | 0 <= i < n :: i in idx <==> Emits(s, i))
  {
    EmitIndicesExact(s, n);
    if n > 0 {
      EventsOfEmittingSlots(track, s, n - 1);
      var idx := EmitIndices(s, n - 1);
      var ev := TrackEvents(track, s, n - 1);
      if Emits(s, n - 1) {
        var idx', ev' := idx + [n - 1], ev + [EventAt(track, s, n - 1)];
        assert EmitIndices(s, n) == idx';
        assert TrackEvents(track, s, n) == ev';
        forall j | 0 <= j < |idx'|
          ensures idx'[j] < |s| && s[idx'[j]].Some? && ev'[j] == EventAt(track, s, idx'[j])
        {
          if j < |idx| {
            assert idx'[j] == idx[j] && ev'[j] == ev[j];
          }
        }
      } else {
        assert EmitIndices(s, n) == idx;
        assert TrackEvents(track, s, n) == ev;
      }
    }
  }

  /** `s[a..b]` is a maximal run of presentations with one title. */
  predicate MaximalRun(s: seq<Option<Entry>>, a: nat, b: nat) {
    && a < b <= |s|
    && s[a].Some?
    && (forall i | a <= i < b :: HasTitle(s, i, s[a].value.title))
    && !HasTitle(s, a - 1, s[a].value.title)
    && !HasTitle(s, b, s[a].value.title)
  }

  /** A maximal run emits exactly once, at its last slot. */
  lemma RunEmitsAtLastSlot(s: seq<Option<Entry>>, a: nat, b: nat)
    requires MaximalRun(s, a, b)
    ensures forall i | a <= i < b :: Emits(s, i) <==> i == b - 1
  {
    assert HasTitle(s, b - 1, s[a].value.title);
    forall i | a <= i < b - 1 ensures !Emits(s, i) {
      assert HasTitle(s, i, s[a].value.title);
      assert HasTitle(s, i + 1, s[a].value.title);
    }
  }

  /** The event of a maximal run: it starts at the run's first slot only if the
      run is at most two slots long, since the start looks back a single slot;
      it ends where the next slot starts, or an hour after its start when the
      run is the last thing on the track or is followed by an empty room. */
  lemma RunEvent(track: Label, s: seq<Option<Entry>>, a: nat, b: nat)
    requires MaximalRun(s, a, b)
    ensures s[b - 1].Some?
    ensures var e := EventAt(track, s, b - 1);
      && e.location == track && e.summary == s[a].value.title
      && e.dtstart == (if b - a <= 2 then s[a].value.start else s[b - 2].value.start)
      && e.dtend == (if b < |s| && s[b].Some? then s[b].value.start else e.dtstart + Hour)
  {
    assert HasTitle(s, b - 1, s[a].value.title);
    if b - a >= 2 {
      assert HasTitle(s, b - 2, s[a].value.title);
    }
  }

  /** A two-slot talk followed by another: one event for the pair, spanning
      both slots and carrying the second slot's details, then one for the
      last talk, an hour long. */
  lemma TwoSlotTalkExample(track: Label)
    ensures var s := [Some(Entry(600, "A", None)), Some(Entry(660, "A", Some("bio"))), Some(Entry(720, "B", None))];
      TrackEvents(track, s, 3) == [Event(track, "A", Some("bio"), 600, 720), Event(track, "B", None, 720, 780)]
  {
    var s := [Some(Entry(600, "A", None)), Some(Entry(660, "A", Some("bio"))), Some(Entry(720, "B", None))];
    assert !Emits(s, 0);
    assert TrackEvents(track, s, 1) == [];
    assert Emits(s, 1) && EventAt(track, s, 1) == Event(track, "A", Some("bio"), 600, 720);
    assert TrackEvents(track, s, 2) == [Event(track, "A", Some("bio"), 600, 720)];
    assert Emits(s, 2) && EventAt(track, s, 2) == Event(track, "B", None, 720, 780);
  }

  /** A three-slot talk: its one event starts at the second slot, since the
      start looks back a single slot. */
  lemma ThreeSlotTalkExample(track: Label)
    ensures var s := [Some(Entry(600, "Foo", None)), Some(Entry(660, "Foo", None)), Some(Entry(720, "Foo", None)), Some(Entry(780, "Bar", None))];
      TrackEvents(track, s, 4) == [Event(track, "Foo", None, 660, 780), Event(track, "Bar", None, 780, 840)]
  {
    var s := [Some(Entry(600, "Foo", None)), Some(Entry(660, "Foo", None)), Some(Entry(720, "Foo", None)), Some(Entry(780, "Bar", None))];
    assert !Emits(s, 0) && !Emits(s, 1);
    assert TrackEvents(track, s, 1) == [];
    assert TrackEvents(track, s, 2) == [];
    assert Emits(s, 2) && EventAt(track, s, 2) == Event(track, "Foo", None, 660, 780);
    assert TrackEvents(track, s, 3) == [Event(track, "Foo", None, 660, 780)];
    assert Emits(s, 3) && EventAt(track, s, 3) == Event(track, "Bar", None, 780, 840);
  }

  /** Presentations on a track in strictly increasing start order. */
  predicate Chronological(s: seq<Option<Entry>>) {
    forall i, j | 0 <= i < j < |s| && s[i].Some? && s[j].Some? :: s[i].value.start < s[j].value.start
  }

  /** On a chronological track every event ends after it starts. */
  lemma EventsEndAfterStart(track: Label, s: seq<Option<Entry>>, i: nat)
    requires Chronological(s) && i < |s| && s[i].Some?
    ensures EventAt(track, s, i).dtstart < EventAt(track, s, i).dtend
  {
    if i + 1 < |s| && s[i + 1].Some? {
      assert s[i].value.start < s[i + 1].value.start;
      if i > 0 && HasTitle(s, i - 1, s[i].value.title) {
        assert s[i - 1].value.start < s[i + 1].value.start;
      }
    }
  }

  /** The track list of `day` and `track` in a map of track lists, empty when absent. */
  function ListOf(entries: map<Label, map<Label, seq<Option<Entry>>>>, day: Label, track: Label): seq<Option<Entry>> {
    if day in entries && track in entries[day] then entries[day][track] else []
  }

  /** The events of the tracks `tracks` of one day, track after track (line 161). */
  function DayEvents(day: Label, tracks: seq<Label>, entries: map<Label, map<Label, seq<Option<Entry>>>>): seq<Event>
    decreases |tracks|
  {
    if tracks == [] then []
    else
      var track := tracks[|tracks| - 1];
      var s := ListOf(entries, day, track);
      DayEvents(day, tracks[..|tracks| - 1], entries) + TrackEvents(track, s, |s|)
  }

  /** The whole calendar: day after day, in the order of `days` (line 159). */
  function Calendar(days: seq<Label>, tracks: map<Label, seq<Label>>, entries: map<Label, map<Label, seq<Option<Entry>>>>): seq<Event>
    decreases |days|
  {
    if days == [] then []
    else
      var day := days[|days| - 1];
      Calendar(days[..|days| - 1], tracks, entries) + DayEvents(day, if day in tracks then tracks[day] else [], entries)
  }

  /** One more track of a day, and one more day of the calendar. */
  lemma DayEventsStep(day: Label, tracks: seq<Label>, k: nat, entries: map<Label, map<Label, seq<Option<Entry>>>>)
    requires k < |tracks|
    ensures var s := ListOf(entries, day, tracks[k]);
      DayEvents(day, tracks[..k + 1], entries) == DayEvents(day, tracks[..k], entries) + TrackEvents(tracks[k], s, |s|)
  {
    assert tracks[..k + 1][..k] == tracks[..k];
  }

  lemma CalendarStep(days: seq<Label>, i: nat, tracks: map<Label, seq<Label>>, entries: map<Label, map<Label, seq<Option<Entry>>>>)
    requires i < |days|
    ensures Calendar(days[..i + 1], tracks, entries) ==
      Calendar(days[..i], tracks, entries) + DayEvents(days[i], if days[i] in tracks then tracks[days[i]] else [], entries)
  {
    assert days[..i + 1][..i] == days[..i];
  }

  /** The calendar depends on the maps of track lists only through the lists. */
  lemma {:induction false} DayEventsOfLists(day: Label, tracks: seq<Label>, e: map<Label, map<Label, seq<Option<Entry>>>>, e': map<Label, map<Label, seq<Option<Entry>>>>)
    requires forall k :: ListOf(e, day, k) == ListOf(e', day, k)
    ensures DayEvents(day, tracks, e) == DayEvents(day, tracks, e')
    decreases |tracks|
  {
    if tracks != [] {
      DayEventsOfLists(day, tracks[..|tracks| - 1], e, e');
    }
  }

  lemma {:induction false} CalendarOfLists(days: seq<Label>, tracks: map<Label, seq<Label>>, e: map<Label, map<Label, seq<Option<Entry>>>>, e': map<Label, map<Label, seq<Option<Entry>>>>)
    requires forall d, k :: ListOf(e, d, k) == ListOf(e', d, k)
    ensures Calendar(days, tracks, e) == Calendar(days, tracks, e')
    decreases |days|
  {
    if days != [] {
      var day := days[|days| - 1];
      CalendarOfLists(days[..|days| - 1], tracks, e, e');
      DayEventsOfLists(day, if day in tracks then tracks[day] else [], e, e');
    }
  }
}
