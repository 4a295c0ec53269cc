/**
 * The three loops of the script, in the imperative form they have there:
 * extraction fills the two dictionaries (defcon.py:66-124), linking writes
 * `details` into the registered presentations (lines 130-150), and
 * consolidation reads the track lists into calendar events (lines 159-196).
 * Each is proved against the pure walk that specifies it.
 */
module Schedule {
  import opened Wrappers
  import opened Titles
  import opened Dates
  import opened Markup
  import opened Extraction
  import opened Linking
  import opened Dictionaries
  import opened Consolidation
  import opened Outcome

  // ------------------------------------------------------------- extraction

  /** The body of the inner loop for one `li` (lines 83-124): nothing for an
      `li` without a track heading, a None slot for an empty room, else a new
      presentation appended to its track and registered under its key, or
      the exception that ends the script. Reading the title, speaker and
      start (lines 95-121) is the pure `TalkOf`. */
  method ExtractLi(day: Label, time: Label, li: Node, t: Tables, ghost posOf: map<Presentation, Pos>, ghost acts: seq<Act>)
    returns (fault: Option<Fault>, t': Tables, ghost posOf': map<Presentation, Pos>, ghost acts': seq<Act>)
    requires Replay(acts) == Some((t, posOf)) && day in t.slots
    ensures fault.None? <==> LiOps(day, time, li).Ok?
    ensures fault.Some? ==> LiOps(day, time, li) == Err(fault.value)
    ensures fault.None? ==> Replay(acts') == Some((t', posOf')) && day in t'.slots
    ensures fault.None? ==> OpsOf(acts') == OpsOf(acts) + LiOps(day, time, li).value
    ensures forall p | p in posOf' && p !in posOf :: fresh(p) && p.details == None
  {
    fault, t', posOf', acts' := None, t, posOf, acts;
    var h4 := FirstFrom(li.children, 0, "h4");
    if h4.None? {
      return;
    }
    var track := li.children[h4.value].text;
    if li.cls == Some(EmptyRoom) {
      t', acts' := WithSlot(t, day, track, null), acts + [Add(day, track, null)];
      ReplayStep(acts, Add(day, track, null), acts');
      return;
    }
    var talk := TalkOf(day, time, li, h4.value);
    if talk.Err? {
      fault := Some(talk.error);
      return;
    }
    var p := new Presentation(talk.value.start, talk.value.title, talk.value.speaker);
    t', posOf', acts' := WithSlot(t, day, track, p), posOf[p := Pos(day, track, |ListAt(t, day, track)|)], acts + [Add(day, track, p)];
    ReplayStep(acts, Add(day, track, p), acts');
  }

  /** The inner loop over the `li`s of one track wrapper (line 82). */
  method ExtractWrapper(day: Label, time: Label, lis: seq<Node>, t: Tables, ghost posOf: map<Presentation, Pos>, ghost acts: seq<Act>)
    returns (fault: Option<Fault>, t': Tables, ghost posOf': map<Presentation, Pos>, ghost acts': seq<Act>)
    requires Replay(acts) == Some((t, posOf)) && day in t.slots
    ensures fault.None? <==> LisOps(day, time, lis).Ok?
    ensures fault.Some? ==> LisOps(day, time, lis) == Err(fault.value)
    ensures fault.None? ==> Replay(acts') == Some((t', posOf')) && day in t'.slots
    ensures fault.None? ==> OpsOf(acts') == OpsOf(acts) + LisOps(day, time, lis).value
    ensures forall p | p in posOf' && p !in posOf :: fresh(p) && p.details == None
  {
    fault, t', posOf', acts' := None, t, posOf, acts;
    for k := 0 to |lis|
      invariant fault.None? && LisOps(day, time, lis[..k]).Ok?
      invariant Replay(acts') == Some((t', posOf')) && day in t'.slots
      invariant OpsOf(acts') == OpsOf(acts) + LisOps(day, time, lis[..k]).value
      invariant forall p | p in posOf' && p !in posOf :: fresh(p) && p.details == None
    {
      ghost var upto := lis[..k + 1];
      assert upto[..|upto| - 1] == lis[..k] && upto[|upto| - 1] == lis[k];
      ghost var before := acts';
      fault, t', posOf', acts' := ExtractLi(day, time, lis[k], t', posOf', acts');
      if fault.Some? {
        LisErrPrefix(day, time, lis, k + 1, fault.value);
        return;
      }
      AppendAssoc(OpsOf(acts), LisOps(day, time, lis[..k]).value, LiOps(day, time, lis[k]).value);
    }
    assert lis[..|lis|] == lis;
  }

  /** The body of the loop over the siblings of a day heading for the
      sibling `run[j]` (lines 76-82): a time heading's track wrapper is the
      next sibling, and any other sibling is passed over. */
  method ExtractSibling(day: Label, run: seq<Node>, j: nat, t: Tables, ghost posOf: map<Presentation, Pos>, ghost acts: seq<Act>)
    returns (fault: Option<Fault>, t': Tables, ghost posOf': map<Presentation, Pos>, ghost acts': seq<Act>)
    requires j < |run| && Replay(acts) == Some((t, posOf)) && day in t.slots
    ensures fault.None? <==> SiblingOps(day, run, j).Ok?
    ensures fault.Some? ==> SiblingOps(day, run, j) == Err(fault.value)
    ensures fault.None? ==> Replay(acts') == Some((t', posOf')) && day in t'.slots
    ensures fault.None? ==> OpsOf(acts') == OpsOf(acts) + SiblingOps(day, run, j).value
    ensures forall p | p in posOf' && p !in posOf :: fresh(p) && p.details == None
  {
    fault, t', posOf', acts' := None, t, posOf, acts;
    if run[j].tag == "h3" {
      if j + 1 >= |run| {
        fault := Some(NoTrackWrapper);
        return;
      }
      fault, t', posOf', acts' := ExtractWrapper(day, run[j].text, run[j + 1].children, t, posOf, acts);
    } else {
      assert OpsOf(acts) + [] == OpsOf(acts);
    }
  }

  /** The loop over the siblings `run[lo..]` of a day heading, up to the
      next `h2` (lines 72-82). */
  method ExtractRun(day: Label, run: seq<Node>, lo: nat, t: Tables, ghost posOf: map<Presentation, Pos>, ghost acts: seq<Act>)
    returns (fault: Option<Fault>, t': Tables, ghost posOf': map<Presentation, Pos>, ghost acts': seq<Act>)
    requires lo <= |run| && Replay(acts) == Some((t, posOf)) && day in t.slots
    ensures fault.None? <==> RunOps(day, run, lo, StopAt(run, lo, "h2")).Ok?
    ensures fault.Some? ==> RunOps(day, run, lo, StopAt(run, lo, "h2")) == Err(fault.value)
    ensures fault.None? ==> Replay(acts') == Some((t', posOf'))
    ensures fault.None? ==> OpsOf(acts') == OpsOf(acts) + RunOps(day, run, lo, StopAt(run, lo, "h2")).value
    ensures forall p | p in posOf' && p !in posOf :: fresh(p) && p.details == None
  {
    ghost var end := StopAt(run, lo, "h2");
    ghost var done: seq<Op> := [];
    fault, t', posOf', acts' := None, t, posOf, acts;
    var j := lo;
    while j < |run| && run[j].tag != "h2"
      invariant lo <= j <= end
      invariant fault.None? && RunOps(day, run, lo, j) == Ok(done)
      invariant Replay(acts') == Some((t', posOf')) && day in t'.slots
      invariant OpsOf(acts') == OpsOf(acts) + done
      invariant forall p | p in posOf' && p !in posOf :: fresh(p) && p.details == None
      decreases |run| - j
    {
      StopStep(run, lo, j);
      fault, t', posOf', acts' := ExtractSibling(day, run, j, t', posOf', acts');
      if fault.Some? {
        RunStepErr(day, run, lo, j, end, fault.value);
        return;
      }
      ghost var more := SiblingOps(day, run, j).value;
      RunStepOk(day, run, lo, j, done, more);
      AppendAssoc(OpsOf(acts), done, more);
      done := done + more;
      j := j + 1;
    }
    StopExit(run, lo, j);
  }

  /** One day heading (lines 68-82): its day is opened, then its siblings are walked. */
  method ExtractDay(c: Cursor, t: Tables, ghost posOf: map<Presentation, Pos>, ghost acts: seq<Act>)
    returns (fault: Option<Fault>, t': Tables, ghost posOf': map<Presentation, Pos>, ghost acts': seq<Act>)
    requires ValidCursor(c) && Replay(acts) == Some((t, posOf))
    ensures fault.None? <==> DayOps(c).Ok?
    ensures fault.Some? ==> DayOps(c) == Err(fault.value)
    ensures fault.None? ==> Replay(acts') == Some((t', posOf'))
    ensures fault.None? ==> OpsOf(acts') == OpsOf(acts) + DayOps(c).value
    ensures forall p | p in posOf' && p !in posOf :: fresh(p) && p.details == None
  {
    var day := c.run[c.at].text;
    ghost var opening := acts + [Act.Open(day)];
    ReplayStep(acts, Act.Open(day), opening);
    fault, t', posOf', acts' := ExtractRun(day, c.run, c.at + 1, WithDay(t, day), posOf, opening);
    if fault.None? {
      AppendAssoc(OpsOf(acts), [Op.OpenDay(day)], RunOps(day, c.run, c.at + 1, DayEnd(c)).value);
    }
  }

  /** The extraction loop over the day headings (lines 66-124). On success
      the dictionaries are those the walk's steps build, and every
      presentation is new and has no `details` yet; otherwise the walk's
      exception is returned. */
  method Extract(root: Node) returns (r: Result<Tables, Fault>, ghost posOf: map<Presentation, Pos>, ghost acts: seq<Act>)
    ensures r.Ok? <==> ScheduleOps(root).Ok?
    ensures r.Err? ==> r.error == ScheduleOps(root).error
    ensures r.Ok? ==> Replay(acts) == Some((r.value, posOf)) && OpsOf(acts) == ScheduleOps(root).value
    ensures r.Ok? ==> forall p | p in posOf :: fresh(p) && p.details == None
  {
    var t := NoTables;
    posOf, acts := map[], [];
    var heads := Select(root, DayQuery);
    for i := 0 to |heads|
      invariant DaysOps(heads[..i]).Ok? && OpsOf(acts) == DaysOps(heads[..i]).value
      invariant Replay(acts) == Some((t, posOf))
      invariant forall p | p in posOf :: fresh(p) && p.details == None
    {
      ghost var upto := heads[..i + 1];
      assert upto[..|upto| - 1] == heads[..i] && upto[|upto| - 1] == heads[i];
      var fault;
      fault, t, posOf, acts := ExtractDay(heads[i], t, posOf, acts);
      if fault.Some? {
        DaysErrPrefix(heads, i + 1, fault.value);
        return Err(fault.value), posOf, acts;
      }
    }
    assert heads[..|heads|] == heads;
    return Ok(t), posOf, acts;
  }

  // ---------------------------------------------------------------- linking

  /** The body of the biography loop for one article (lines 131-150): it
      is passed over without a titled `h2`; otherwise its aliased key must be
      registered (else the KeyError) and its text becomes that presentation's
      `details`. Each key is that of its own presentation, so no other
      presentation changes. */
  method LinkArticle(article: Node, byTitle: map<string, Presentation>) returns (step: Result<Option<Link>, string>)
    requires forall k | k in byTitle :: CleanTitle(byTitle[k].title) == k
    modifies byTitle.Values
    ensures step == ArticleLink(article, byTitle.Keys)
    ensures forall k | k in byTitle ::
      byTitle[k].details == if step == Ok(Some(Link(k, article.allText))) then Some(article.allText) else old(byTitle[k].details)
  {
    var h2 := FirstFrom(article.children, 0, "h2");
    if h2.None? {
      return Ok(None);
    }
    var titleText := article.children[h2.value].text;
    if titleText.None? || titleText.value == "" {
      return Ok(None);
    }
    var key := CleanTitle(AliasTitle(titleText.value));
    if key !in byTitle {
      return Err(key);
    }
    var presentation := byTitle[key];
    presentation.details := Some(article.allText);
    step := Ok(Some(Link(key, article.allText)));
  }

  /** The biography loop over the articles (lines 130-150). */
  method LinkBios(root: Node, byTitle: map<string, Presentation>) returns (missing: Option<string>)
    requires forall k | k in byTitle :: CleanTitle(byTitle[k].title) == k
    modifies byTitle.Values
    ensures missing.Some? <==> BioLinks(root, byTitle.Keys).Err?
    ensures missing.Some? ==> BioLinks(root, byTitle.Keys) == Err(missing.value)
    ensures missing.None? ==> forall k | k in byTitle ::
      byTitle[k].details == DetailsAfter(BioLinks(root, byTitle.Keys).value, k, old(byTitle[k].details))
  {
    var articles := Select(root, ArticleQuery);
    ghost var keys := byTitle.Keys;
    ghost var before := map k | k in byTitle :: byTitle[k].details;
    missing := None;
    for i := 0 to |articles|
      invariant Links(articles[..i], keys).Ok?
      invariant forall k | k in byTitle :: byTitle[k].details == DetailsAfter(Links(articles[..i], keys).value, k, before[k])
    {
      ghost var links := Links(articles[..i], keys).value;
      var step := LinkArticle(NodeAt(articles[i]), byTitle);
      LinksStep(articles, keys, i);
      if step.Err? {
        missing := Some(step.error);
        LinksErrPrefix(articles, keys, i + 1, step.error);
        return;
      }
      if step.value.Some? {
        DetailsAfterStep(links, step.value.value, before[step.value.value.key]);
      }
    }
    assert articles[..|articles|] == articles;
  }

  // ---------------------------------------------------------- consolidation

  /** The consolidation loop over one track list (lines 164-196). */
  method ConsolidateTrack(track: Label, sched: seq<Presentation?>) returns (events: seq<Event>)
    ensures events == TrackEvents(track, Entries(sched), |sched|)
  {
    ghost var s := Entries(sched);
    events := [];
    for index := 0 to |sched|
      invariant events == TrackEvents(track, s, index)
    {
      var presentation := sched[index];
      if presentation == null {
        continue;
      }
      var next := if |sched| >= index + 2 then sched[index + 1] else null;
      if next != null && next.title == presentation.title {
        continue;
      }
      var prev := if index > 0 then sched[index - 1] else null;
      var description := if presentation.details.Some? && presentation.details.value != "" then presentation.details else None;
      var start := if prev != null && prev.title == presentation.title then prev.start else presentation.start;
      var end := if next != null then next.start else start + Hour;
      events := events + [Event(track, presentation.title, description, start, end)];
    }
  }

  /** The loop over the tracks of one day, in insertion order (lines 161-196);
      `entries` is what the track lists hold. */
  method ConsolidateDay(t: Tables, day: Label, tracks: seq<Label>, ghost entries: map<Label, map<Label, seq<Option<Entry>>>>)
    returns (events: seq<Event>)
    requires forall k :: ListOf(entries, day, k) == Entries(ListAt(t, day, k))
    ensures events == DayEvents(day, tracks, entries)
  {
    events := [];
    for k := 0 to |tracks|
      invariant events == DayEvents(day, tracks[..k], entries)
    {
      var track := tracks[k];
      var trackEvents := ConsolidateTrack(track, ListAt(t, day, track));
      DayEventsStep(day, tracks, k, entries);
      events := events + trackEvents;
    }
    assert tracks[..|tracks|] == tracks;
  }

  /** The loop over the days, in insertion order (lines 159-196). */
  method Consolidate(t: Tables) returns (events: seq<Event>)
    ensures events == Calendar(t.days, t.tracks, Snapshot(t))
  {
    ghost var entries := Snapshot(t);
    events := [];
    for i := 0 to |t.days|
      invariant events == Calendar(t.days[..i], t.tracks, entries)
      invariant forall d, k :: ListOf(entries, d, k) == Entries(ListAt(t, d, k))
    {
      var day := t.days[i];
      var dayEvents := ConsolidateDay(t, day, if day in t.tracks then t.tracks[day] else [], entries);
      CalendarStep(t.days, i, t.tracks, entries);
      events := events + dayEvents;
    }
    assert t.days[..|t.days|] == t.days;
    CalendarOfLists(t.days, t.tracks, entries, Snapshot(t));
  }

  // ------------------------------------------------------------- the script

  /** The registry's keys are those the steps register, and the track
      orders are those the steps build. */
  lemma TablesAgree(ops: seq<Op>, t: Tables, posOf: map<Presentation, Pos>)
    requires Holds(ops, t, posOf)
    ensures t.byTitle.Keys == Keys(ops)
    ensures t.days == DaysOf(ops) && t.tracks == TracksMap(ops)
  {
    forall key
      ensures key in t.byTitle <==> key in Keys(ops)
    {
      KeysHavePositions(ops, key);
    }
  }

  /** What a presentation's `details` are once the biography walk has
      linked `links`: its key's last details if it is the registered
      presentation of its key, else unset. */
  ghost predicate Linked(t: Tables, links: seq<Link>)
    reads Objects(t)
  {
    forall p | p in Objects(t) ::
      var key := CleanTitle(p.title);
      p.details == if key in t.byTitle && t.byTitle[key] == p then LastDetails(links, key) else None
  }

  /** One entry of a linked track list is the one the pure run reads. */
  lemma LinkedEntry(ops: seq<Op>, t: Tables, posOf: map<Presentation, Pos>, links: seq<Link>, d: Label, k: Label, i: nat)
    requires Holds(ops, t, posOf) && Linked(t, links)
    requires d in t.slots && k in t.slots[d] && i < |t.slots[d][k]|
    ensures i < |SlotsOf(ops, d, k)|
    ensures EntryOf(t.slots[d][k][i]) == EntryAt(ops, links, d, k, i)
  {
    var p := t.slots[d][k][i];
    assert SlotsView(t.slots[d][k])[i] == SlotOf(p);
    if p != null {
      assert p in t.slots[d][k];
      assert p in Objects(t);
      var key := CleanTitle(p.title);
      var registered := key in t.byTitle && t.byTitle[key] == p;
      if registered {
        var q := LastPos(ops, key).value;
        assert ListAt(t, q.day, q.track)[q.index] == p;
        assert posOf[p] == q;
      }
      if LastPos(ops, key) == Some(Pos(d, k, i)) {
        assert ListAt(t, d, k)[i] == t.byTitle[key];
      }
    }
  }

  /** Once linked, the track lists hold what the pure run reads. */
  lemma LinkedEntries(ops: seq<Op>, t: Tables, posOf: map<Presentation, Pos>, links: seq<Link>)
    requires Holds(ops, t, posOf) && Linked(t, links)
    ensures forall d, k :: ListOf(Snapshot(t), d, k) == ListOf(EntriesMap(ops, links), d, k)
  {
    var entries := EntriesMap(ops, links);
    forall d, k
      ensures ListOf(Snapshot(t), d, k) == ListOf(entries, d, k)
    {
      if d in t.slots && k in t.slots[d] {
        var ps := t.slots[d][k];
        assert |SlotsView(ps)| == |SlotsOf(ops, d, k)|;
        forall i | 0 <= i < |ps|
          ensures Entries(ps)[i] == ListEntries(ops, links, d, k)[i]
        {
          LinkedEntry(ops, t, posOf, links, d, k, i);
        }
        assert Entries(ps) == ListEntries(ops, links, d, k);
      }
    }
  }

  /** The whole script (lines 55-200, the downloads and the file write
      aside): the schedule walk, the biography walk, then the calendar. */
  method Convert(schedule: Node, bios: Node) returns (r: Result<seq<Event>, Failure>)
    ensures r == Run(schedule, bios)
  {
    var extracted, posOf, acts := Extract(schedule);
    if extracted.Err? {
      return Err(Malformed(extracted.error));
    }
    var t := extracted.value;
    ghost var ops := OpsOf(acts);
    ReplayHolds(acts);
    PlacedObjects(ops, t, posOf);
    TablesAgree(ops, t, posOf);
    var missing := LinkBios(bios, t.byTitle);
    if missing.Some? {
      return Err(Unlinked(missing.value));
    }
    ghost var links := BioLinks(bios, Keys(ops)).value;
    forall p | p in Objects(t)
      ensures var key := CleanTitle(p.title);
        p.details == if key in t.byTitle && t.byTitle[key] == p then LastDetails(links, key) else None
    {
      var key := CleanTitle(p.title);
      if key in t.byTitle && t.byTitle[key] == p {
        assert p.details == DetailsAfter(links, key, None);
      } else {
        assert p !in t.byTitle.Values;
      }
    }
    LinkedEntries(ops, t, posOf, links);
    var events := Consolidate(t);
    CalendarOfLists(t.days, t.tracks, Snapshot(t), EntriesMap(ops, links));
    return Ok(events);
  }
}
