/**
 * The script's two dictionaries (defcon.py:66-67): `presentations_by_day_track`,
 * with the insertion order of its keys kept beside it since the calendar is
 * written in that order, and `presentations_by_title`. Both hold the same
 * presentation objects. `Holds` ties them to the extraction steps applied so
 * far, and each step keeps it.
 */
module Dictionaries {
  import opened Wrappers
  import opened Titles
  import opened Extraction
  import opened Consolidation

  /** A presentation dict (lines 117-121). Linking adds `details` to it in
      place (line 150); before that it has none. */
  class Presentation {
    const start: int
    const title: string
    const speaker: Option<string>
    var details: Option<string>

    constructor (start: int, title: string, speaker: Option<string>)
      ensures this.start == start && this.title == title && this.speaker == speaker
      ensures details == None
    {
      this.start := start;
      this.title := title;
      this.speaker := speaker;
      details := None;
    }
  }

  /** The value a track list entry stands for (None for an empty room). */
  function SlotOf(p: Presentation?): Slot {
    if p == null then None else Some(Talk(p.start, p.title, p.speaker))
  }

  function SlotsView(ps: seq<Presentation?>): (r: seq<Slot>)
    ensures |r| == |ps| && forall i | 0 <= i < |ps| :: r[i] == SlotOf(ps[i])
  {
    seq(|ps|, i requires 0 <= i < |ps| => SlotOf(ps[i]))
  }

  /** Both dictionaries. `days` and `tracks` are the key orders of
      `slots` and of each `slots[day]`. */
  datatype Tables = Tables(
    days: seq<Label>,
    tracks: map<Label, seq<Label>>,
    slots: map<Label, map<Label, seq<Presentation?>>>,
    byTitle: map<string, Presentation>)

  const NoTables := Tables([], map[], map[], map[])

  /** A track list, empty when absent. */
  function ListAt(t: Tables, day: Label, track: Label): seq<Presentation?> {
    if day in t.slots && track in t.slots[day] then t.slots[day][track] else []
  }

  /** `presentations_by_day_track.setdefault(day, {})` (line 70). */
  function WithDay(t: Tables, day: Label): (r: Tables)
    ensures day in r.slots && r.byTitle == t.byTitle
    ensures forall d, k | d in t.slots :: ListAt(r, d, k) == ListAt(t, d, k)
  {
    if day in t.slots then t
    else t.(days := t.days + [day], tracks := t.tracks[day := []], slots := t.slots[day := map[]])
  }

  /** `presentations_by_day_track[day].setdefault(track, []).append(p)` and,
      for a presentation, `presentations_by_title[clean_title(p.title)] = p`
      (lines 89-93, 123-124). The day has always been opened before. */
  function WithSlot(t: Tables, day: Label, track: Label, p: Presentation?): (r: Tables)
    requires day in t.slots
    ensures day in r.slots && r.days == t.days
    ensures ListAt(r, day, track) == ListAt(t, day, track) + [p]
    ensures forall d, k | d != day || k != track :: ListAt(r, d, k) == ListAt(t, d, k)
    ensures r.byTitle == if p == null then t.byTitle else t.byTitle[CleanTitle(p.title) := p]
  {
    var list := ListAt(t, day, track);
    var tracks := if day in t.tracks then t.tracks[day] else [];
    t.(tracks := if track in t.slots[day] then t.tracks else t.tracks[day := tracks + [track]],
       slots := t.slots[day := t.slots[day][track := list + [p]]],
       byTitle := if p == null then t.byTitle else t.byTitle[CleanTitle(p.title) := p])
  }

  // ------------------------------------------- the updates the extraction makes

  /** One update of the dictionaries: opening a day, or appending to a track
      list (a presentation object, or None for an empty room). */
  datatype Act = Open(day: Label) | Add(day: Label, track: Label, p: Presentation?)

  function OpOf(a: Act): Op {
    match a
    case Open(d) => Op.OpenDay(d)
    case Add(d, k, p) => Put(d, k, SlotOf(p))
  }

  function OpsOf(acts: seq<Act>): seq<Op>
    decreases |acts|
  {
    if acts == [] then [] else OpsOf(acts[..|acts| - 1]) + [OpOf(acts[|acts| - 1])]
  }

  /** Whether the update `a` can be applied to `t`: a track list is appended
      to only under an opened day, and each presentation object is new. */
  predicate Applicable(t: Tables, posOf: map<Presentation, Pos>, a: Act) {
    a.Add? ==> a.day in t.slots && (a.p != null ==> a.p !in posOf)
  }

  /** The dictionaries after one update that applies, and where each
      presentation object is. */
  function Apply(t: Tables, posOf: map<Presentation, Pos>, a: Act): (Tables, map<Presentation, Pos>)
    requires Applicable(t, posOf, a)
  {
    match a
    case Open(d) => (WithDay(t, d), posOf)
    case Add(d, k, p) =>
      (WithSlot(t, d, k, p), if p == null then posOf else posOf[p := Pos(d, k, |ListAt(t, d, k)|)])
  }

  /** The dictionaries after the updates `acts`, from empty ones, and where
      each presentation object was put; None if some update cannot apply. */
  function Replay(acts: seq<Act>): Option<(Tables, map<Presentation, Pos>)>
    decreases |acts|
  {
    if acts == [] then Some((NoTables, map[]))
    else
      match Replay(acts[..|acts| - 1])
      case None => None
      case Some((t, posOf)) =>
        var a := acts[|acts| - 1];
        if Applicable(t, posOf, a) then Some(Apply(t, posOf, a)) else None
  }

  // ------------------------------------------------- what consolidation reads

  /** Every presentation object in the track lists. */
  function Objects(t: Tables): set<Presentation> {
    set d, k, p: Presentation | d in t.slots && k in t.slots[d] && p in t.slots[d][k] :: p
  }

  /** A track list entry as the consolidation loop reads it. */
  function EntryOf(p: Presentation?): Option<Entry>
    reads p
  {
    if p == null then None else Some(Entry(p.start, p.title, p.details))
  }

  function Entries(ps: seq<Presentation?>): (r: seq<Option<Entry>>)
    reads ps
    ensures |r| == |ps| && forall i | 0 <= i < |ps| :: r[i] == EntryOf(ps[i])
  {
    seq(|ps|, i reads ps requires 0 <= i < |ps| => EntryOf(ps[i]))
  }

  /** The track lists as the consolidation loop reads them, in the current heap. */
  function Snapshot(t: Tables): (r: map<Label, map<Label, seq<Option<Entry>>>>)
    reads Objects(t)
    ensures forall d, k :: ListOf(r, d, k) == Entries(ListAt(t, d, k))
  {
    assert forall d, k, p: Presentation | d in t.slots && k in t.slots[d] && p in t.slots[d][k] :: p in Objects(t);
    map d | d in t.slots :: map k | k in t.slots[d] :: Entries(t.slots[d][k])
  }

  // ------------------------------------------------- the dictionaries' invariant

  /** The days are those `ops` opens, and both maps have exactly them as keys. */
  ghost predicate DayKeys(ops: seq<Op>, t: Tables) {
    && t.days == DaysOf(ops)
    && (forall d :: d in t.slots <==> d in t.days)
    && (forall d :: d in t.tracks <==> d in t.days)
  }

  /** Each day's track order is the one `ops` builds. */
  ghost predicate TrackOrders(ops: seq<Op>, t: Tables) {
    forall d | d in t.slots && d in t.tracks :: t.tracks[d] == TracksOf(ops, d)
  }

  /** Each day's track order lists exactly the keys of its track lists. */
  ghost predicate TrackKeys(t: Tables) {
    forall d, k | d in t.slots && d in t.tracks :: k in t.slots[d] <==> k in t.tracks[d]
  }

  /** The days, their tracks and their keys are those `ops` builds. */
  ghost predicate DayShape(ops: seq<Op>, t: Tables) {
    DayKeys(ops, t) && TrackOrders(ops, t) && TrackKeys(t)
  }

  /** Every track list holds the slots `ops` appends to it. */
  ghost predicate SlotShape(ops: seq<Op>, t: Tables) {
    forall d, k | d in t.slots && k in t.slots[d] :: SlotsView(t.slots[d][k]) == SlotsOf(ops, d, k)
  }

  /** `presentations_by_title` holds, for each key, the object at `LastPos`. */
  ghost predicate Registry(ops: seq<Op>, t: Tables) {
    && (forall key :: key in t.byTitle <==> LastPos(ops, key).Some?)
    && (forall key | key in t.byTitle ::
          var q := LastPos(ops, key).value;
          && CleanTitle(t.byTitle[key].title) == key
          && q.index < |ListAt(t, q.day, q.track)|
          && ListAt(t, q.day, q.track)[q.index] == t.byTitle[key])
  }

  /** `posOf` gives the one place of each presentation object. */
  ghost predicate Placed(t: Tables, posOf: map<Presentation, Pos>) {
    forall d, k, i | d in t.slots && k in t.slots[d] && 0 <= i < |t.slots[d][k]| && t.slots[d][k][i] != null ::
      t.slots[d][k][i] in posOf && posOf[t.slots[d][k][i]] == Pos(d, k, i)
  }

  /** What the two dictionaries hold after the steps `ops`. */
  ghost predicate Holds(ops: seq<Op>, t: Tables, posOf: map<Presentation, Pos>) {
    DayShape(ops, t) && SlotShape(ops, t) && Registry(ops, t) && Placed(t, posOf)
  }

  /** The last step of `ops'` is `op`, so every definition over it unfolds once. */
  lemma Unfold(ops: seq<Op>, op: Op, ops': seq<Op>)
    requires ops' == ops + [op]
    ensures ops'[..|ops'| - 1] == ops && ops'[|ops'| - 1] == op
  {
  }

  lemma NoTablesHold()
    ensures Holds([], NoTables, map[])
  {
  }

  lemma WithDayShape(ops: seq<Op>, t: Tables, day: Label)
    requires DayShape(ops, t)
    ensures DayShape(ops + [Op.OpenDay(day)], WithDay(t, day))
  {
    var ops' := ops + [Op.OpenDay(day)];
    Unfold(ops, Op.OpenDay(day), ops');
    if day !in t.slots {
      UnseenDay(ops, day, None);
    }
  }

  lemma WithDaySlots(ops: seq<Op>, t: Tables, day: Label)
    requires DayShape(ops, t) && SlotShape(ops, t)
    ensures SlotShape(ops + [Op.OpenDay(day)], WithDay(t, day))
  {
    var ops' := ops + [Op.OpenDay(day)];
    Unfold(ops, Op.OpenDay(day), ops');
    var t' := WithDay(t, day);
    forall d, k | d in t'.slots && k in t'.slots[d] ensures SlotsView(t'.slots[d][k]) == SlotsOf(ops', d, k) {
      assert d in t.slots;
    }
  }

  lemma WithDayRegistry(ops: seq<Op>, t: Tables, day: Label)
    requires Registry(ops, t)
    ensures Registry(ops + [Op.OpenDay(day)], WithDay(t, day))
  {
    var ops' := ops + [Op.OpenDay(day)];
    Unfold(ops, Op.OpenDay(day), ops');
    assert forall key :: LastPos(ops', key) == LastPos(ops, key);
  }

  lemma WithDayPlaced(t: Tables, posOf: map<Presentation, Pos>, day: Label)
    requires Placed(t, posOf)
    ensures Placed(WithDay(t, day), posOf)
  {
  }

  /** Opening a day keeps the invariant. */
  lemma WithDayHolds(ops: seq<Op>, t: Tables, posOf: map<Presentation, Pos>, day: Label, ops': seq<Op>, t': Tables)
    requires Holds(ops, t, posOf)
    requires ops' == ops + [Op.OpenDay(day)] && t' == WithDay(t, day)
    ensures Holds(ops', t', posOf) && day in t'.slots
  {
    WithDayShape(ops, t, day);
    WithDaySlots(ops, t, day);
    WithDayRegistry(ops, t, day);
    WithDayPlaced(t, posOf, day);
  }

  /** The length of a track list is the number of slots `ops` appended to it. */
  lemma ListLength(ops: seq<Op>, t: Tables, day: Label, track: Label)
    requires DayShape(ops, t) && SlotShape(ops, t) && day in t.slots
    ensures |ListAt(t, day, track)| == |SlotsOf(ops, day, track)|
  {
    if track !in t.slots[day] {
      UnseenTrack(ops, day, track);
    }
  }

  /** What one more `Put` step does to the days, to the track order of a
      day and to a track list. */
  lemma PutDays(ops: seq<Op>, day: Label, track: Label, slot: Slot, ops': seq<Op>)
    requires ops' == ops + [Put(day, track, slot)]
    ensures DaysOf(ops') == if day in DaysOf(ops) then DaysOf(ops) else DaysOf(ops) + [day]
  {
    Unfold(ops, Put(day, track, slot), ops');
  }

  lemma PutTracks(ops: seq<Op>, day: Label, track: Label, slot: Slot, ops': seq<Op>, d: Label)
    requires ops' == ops + [Put(day, track, slot)]
    ensures TracksOf(ops', d) == if d == day && track !in TracksOf(ops, d) then TracksOf(ops, d) + [track] else TracksOf(ops, d)
  {
    Unfold(ops, Put(day, track, slot), ops');
  }

  lemma PutSlots(ops: seq<Op>, day: Label, track: Label, slot: Slot, ops': seq<Op>, d: Label, k: Label)
    requires ops' == ops + [Put(day, track, slot)]
    ensures SlotsOf(ops', d, k) == if d == day && k == track then SlotsOf(ops, d, k) + [slot] else SlotsOf(ops, d, k)
  {
    Unfold(ops, Put(day, track, slot), ops');
  }

  lemma PutLastPos(ops: seq<Op>, day: Label, track: Label, slot: Slot, ops': seq<Op>, key: string)
    requires ops' == ops + [Put(day, track, slot)]
    ensures LastPos(ops', key) ==
      if slot.Some? && CleanTitle(slot.value.title) == key then Some(Pos(day, track, |SlotsOf(ops, day, track)|)) else LastPos(ops, key)
  {
    Unfold(ops, Put(day, track, slot), ops');
  }

  lemma WithSlotDayKeys(ops: seq<Op>, t: Tables, day: Label, track: Label, p: Presentation?)
    requires DayKeys(ops, t) && day in t.slots
    ensures day in t.tracks
    ensures DayKeys(ops + [Put(day, track, SlotOf(p))], WithSlot(t, day, track, p))
  {
    var ops' := ops + [Put(day, track, SlotOf(p))];
    PutDays(ops, day, track, SlotOf(p), ops');
    var t' := WithSlot(t, day, track, p);
    assert day in t.days && day in t.tracks;
    assert t'.slots.Keys == t.slots.Keys && t'.tracks.Keys == t.tracks.Keys;
  }

  lemma WithSlotTrackOrders(ops: seq<Op>, t: Tables, day: Label, track: Label, p: Presentation?)
    requires TrackOrders(ops, t) && TrackKeys(t) && day in t.slots && day in t.tracks
    ensures TrackOrders(ops + [Put(day, track, SlotOf(p))], WithSlot(t, day, track, p))
  {
    var ops' := ops + [Put(day, track, SlotOf(p))];
    var t' := WithSlot(t, day, track, p);
    forall d | d in t'.slots && d in t'.tracks ensures t'.tracks[d] == TracksOf(ops', d) {
      PutTracks(ops, day, track, SlotOf(p), ops', d);
      if d == day {
        assert track in t.slots[day] <==> track in TracksOf(ops, day);
      } else {
        assert t'.tracks[d] == t.tracks[d];
      }
    }
  }

  lemma WithSlotTrackKeys(t: Tables, day: Label, track: Label, p: Presentation?)
    requires TrackKeys(t) && day in t.slots && day in t.tracks
    ensures TrackKeys(WithSlot(t, day, track, p))
  {
    var t' := WithSlot(t, day, track, p);
    forall d, k | d in t'.slots && d in t'.tracks ensures k in t'.slots[d] <==> k in t'.tracks[d] {
      if d != day {
        assert t'.slots[d] == t.slots[d] && t'.tracks[d] == t.tracks[d];
      }
    }
  }

  lemma WithSlotDays(ops: seq<Op>, t: Tables, day: Label, track: Label, p: Presentation?)
    requires DayShape(ops, t) && day in t.slots
    ensures day in t.tracks
    ensures DayShape(ops + [Put(day, track, SlotOf(p))], WithSlot(t, day, track, p))
  {
    WithSlotDayKeys(ops, t, day, track, p);
    WithSlotTrackOrders(ops, t, day, track, p);
    WithSlotTrackKeys(t, day, track, p);
  }

  lemma WithSlotSlots(ops: seq<Op>, t: Tables, day: Label, track: Label, p: Presentation?)
    requires DayShape(ops, t) && SlotShape(ops, t) && day in t.slots
    ensures SlotShape(ops + [Put(day, track, SlotOf(p))], WithSlot(t, day, track, p))
  {
    var ops' := ops + [Put(day, track, SlotOf(p))];
    var t' := WithSlot(t, day, track, p);
    if track !in t.slots[day] {
      UnseenTrack(ops, day, track);
    }
    assert SlotsView(ListAt(t, day, track) + [p]) == SlotsView(ListAt(t, day, track)) + [SlotOf(p)];
    forall d, k | d in t'.slots && k in t'.slots[d] ensures SlotsView(t'.slots[d][k]) == SlotsOf(ops', d, k) {
      PutSlots(ops, day, track, SlotOf(p), ops', d, k);
      assert t'.slots[d][k] == ListAt(t', d, k);
      if d != day || k != track {
        assert ListAt(t', d, k) == t.slots[d][k];
      }
    }
  }

  lemma WithSlotRegistry(ops: seq<Op>, t: Tables, day: Label, track: Label, p: Presentation?)
    requires Registry(ops, t) && day in t.slots && day in t.tracks
    requires |ListAt(t, day, track)| == |SlotsOf(ops, day, track)|
    ensures Registry(ops + [Put(day, track, SlotOf(p))], WithSlot(t, day, track, p))
  {
    var ops' := ops + [Put(day, track, SlotOf(p))];
    var t' := WithSlot(t, day, track, p);
    var list := ListAt(t, day, track);
    forall key ensures key in t'.byTitle <==> LastPos(ops', key).Some? {
      PutLastPos(ops, day, track, SlotOf(p), ops', key);
    }
    forall key | key in t'.byTitle
      ensures var q := LastPos(ops', key).value;
        && CleanTitle(t'.byTitle[key].title) == key
        && q.index < |ListAt(t', q.day, q.track)|
        && ListAt(t', q.day, q.track)[q.index] == t'.byTitle[key]
    {
      PutLastPos(ops, day, track, SlotOf(p), ops', key);
      if p != null && CleanTitle(p.title) == key {
        assert LastPos(ops', key) == Some(Pos(day, track, |list|));
        assert t'.byTitle[key] == p;
      } else {
        assert LastPos(ops', key) == LastPos(ops, key);
        assert t'.byTitle[key] == t.byTitle[key];
      }
    }
  }

  lemma WithSlotPlaced(t: Tables, posOf: map<Presentation, Pos>, day: Label, track: Label, p: Presentation?)
    requires Placed(t, posOf) && day in t.slots && day in t.tracks && (p != null ==> p !in posOf)
    ensures Placed(WithSlot(t, day, track, p), if p == null then posOf else posOf[p := Pos(day, track, |ListAt(t, day, track)|)])
  {
    var t' := WithSlot(t, day, track, p);
    var posOf' := if p == null then posOf else posOf[p := Pos(day, track, |ListAt(t, day, track)|)];
    forall d, k, i | d in t'.slots && k in t'.slots[d] && 0 <= i < |t'.slots[d][k]| && t'.slots[d][k][i] != null
      ensures t'.slots[d][k][i] in posOf' && posOf'[t'.slots[d][k][i]] == Pos(d, k, i)
    {
      assert t'.slots[d][k] == ListAt(t', d, k);
      if d == day && k == track && i == |ListAt(t, day, track)| {
        assert t'.slots[d][k][i] == p;
      } else {
        assert t'.slots[d][k][i] == t.slots[d][k][i];
      }
    }
  }

  /** Appending a slot keeps the invariant; a new presentation is placed at
      the end of its track list. */
  lemma WithSlotHolds(ops: seq<Op>, t: Tables, posOf: map<Presentation, Pos>, day: Label, track: Label, p: Presentation?,
                      ops': seq<Op>, t': Tables, posOf': map<Presentation, Pos>)
    requires Holds(ops, t, posOf) && day in t.slots && day in t.tracks && (p != null ==> p !in posOf)
    requires ops' == ops + [Put(day, track, SlotOf(p))] && t' == WithSlot(t, day, track, p)
    requires posOf' == if p == null then posOf else posOf[p := Pos(day, track, |ListAt(t, day, track)|)]
    ensures Holds(ops', t', posOf') && day in t'.slots
  {
    WithSlotDays(ops, t, day, track, p);
    WithSlotSlots(ops, t, day, track, p);
    ListLength(ops, t, day, track);
    WithSlotRegistry(ops, t, day, track, p);
    WithSlotPlaced(t, posOf, day, track, p);
  }

  /** Each registered presentation is filed under its own key, and every
      presentation object, registered or not, has a place. */
  lemma PlacedObjects(ops: seq<Op>, t: Tables, posOf: map<Presentation, Pos>)
    requires Holds(ops, t, posOf)
    ensures forall key | key in t.byTitle :: t.byTitle[key] in posOf && CleanTitle(t.byTitle[key].title) == key
    ensures forall p | p in Objects(t) :: p in posOf
  {
    forall key | key in t.byTitle
      ensures t.byTitle[key] in posOf
    {
      var q := LastPos(ops, key).value;
      assert ListAt(t, q.day, q.track)[q.index] == t.byTitle[key];
    }
    forall p | p in Objects(t)
      ensures p in posOf
    {
      var d, k :| d in t.slots && k in t.slots[d] && p in t.slots[d][k];
      var i :| 0 <= i < |t.slots[d][k]| && t.slots[d][k][i] == p;
    }
  }

  /** Replaying one more update that applies. */
  lemma ReplayStep(acts: seq<Act>, a: Act, acts': seq<Act>)
    requires Replay(acts).Some? && Applicable(Replay(acts).value.0, Replay(acts).value.1, a)
    requires acts' == acts + [a]
    ensures OpsOf(acts') == OpsOf(acts) + [OpOf(a)]
    ensures Replay(acts') == Some(Apply(Replay(acts).value.0, Replay(acts).value.1, a))
  {
    assert acts'[..|acts'| - 1] == acts;
  }

  /** Every sequence of updates that applies builds dictionaries that hold
      what its steps describe. */
  lemma {:induction false} ReplayHolds(acts: seq<Act>)
    requires Replay(acts).Some?
    ensures Holds(OpsOf(acts), Replay(acts).value.0, Replay(acts).value.1)
    decreases |acts|
  {
    if acts == [] {
      NoTablesHold();
    } else {
      var init := acts[..|acts| - 1];
      var a := acts[|acts| - 1];
      ReplayHolds(init);
      var (t, posOf) := Replay(init).value;
      assert OpsOf(acts) == OpsOf(init) + [OpOf(a)];
      match a
      case Open(d) =>
        WithDayHolds(OpsOf(init), t, posOf, d, OpsOf(acts), WithDay(t, d));
      case Add(d, k, p) =>
        WithSlotHolds(OpsOf(init), t, posOf, d, k, p, OpsOf(acts), Replay(acts).value.0, Replay(acts).value.1);
    }
  }
}
