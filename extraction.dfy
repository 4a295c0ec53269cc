/**
 * The schedule walk (defcon.py:66-124), as a pure function of the document.
 * Walking the document yields the steps the script applies to its two
 * dictionaries, in order: `OpenDay` is `presentations_by_day_track.setdefault`
 * for a day heading; `Put` is the `setdefault` of a track list followed by one
 * `append` (of None for an empty room, of a presentation otherwise, which is
 * then also stored in `presentations_by_title`). A fatal exception of the
 * walk is an `Err`.
 *
 * The second half gives what the dictionaries hold after a sequence of steps:
 * the days and tracks in first-seen order, each track's slots, and for each
 * matching key the position of the presentation registered under it.
 */
module Extraction {
  import opened Wrappers
  import opened Titles
  import opened Dates
  import opened Markup

  /** A `.text` used as a dictionary key (a day name or a track name). */
  type Label = Option<string>

  /** The immutable part of a presentation dict: `start`, `title`, `speaker`. */
  datatype Talk = Talk(start: int, title: string, speaker: Option<string>)

  /** One entry of a track list: None for an empty room. */
  type Slot = Option<Talk>

  datatype Op = OpenDay(day: Label) | Put(day: Label, track: Label, slot: Slot)

  /** The exceptions that end the walk. */
  datatype Fault =
    | NoTrackWrapper   // a time heading with no next sibling (line 82)
    | NoTitle          // no `p` after the track heading (line 97)
    | NoSpeaker        // no second `p` after the track heading (line 107)
    | BadTime          // the time heading's text does not parse as `%H:%M` (line 113)
    | UnknownDay       // the day heading's text is not in `dates` (line 115)
    | UntitledTalk     // the title element has no text, so `clean_title` fails (line 124)

  const DayQuery := Query("h2", Some("category"))
  const EmptyRoom := "emptyRoom"

  /** Where a slot sits: `presentations_by_day_track[day][track][index]`. */
  datatype Pos = Pos(day: Label, track: Label, index: nat)

  /** The matching key of a step that appends a presentation. */
  predicate IsTalkWithKey(op: Op, k: string) {
    op.Put? && op.slot.Some? && CleanTitle(op.slot.value.title) == k
  }

  // ---------------------------------------------------------------- the walk

  /** The title text: that of the paragraph's first link if it has one,
      else the paragraph's own (lines 97-104). */
  function TitleText(p: Node): Label {
    match FirstFrom(p.children, 0, "a")
    case Some(a) => p.children[a].text
    case None => p.text
  }

  /** The presentation of an `li` whose track heading is `li.children[h4]`
      and which is not an empty room (lines 95-121). */
  function TalkOf(day: Label, time: Label, li: Node, h4: nat): Result<Talk, Fault>
    requires h4 < |li.children|
  {
    match FirstFrom(li.children, h4 + 1, "p")
    case None => Err(NoTitle)
    case Some(tp) =>
      var title := TitleText(li.children[tp]);
      match FirstFrom(li.children, tp + 1, "p")
      case None => Err(NoSpeaker)
      case Some(sp) =>
        match ParseClock(time)
        case None => Err(BadTime)
        case Some(clock) =>
          match MkDate(day, clock)
          case None => Err(UnknownDay)
          case Some(start) =>
            if title.None? then Err(UntitledTalk)
            else Ok(Talk(start, title.value, li.children[sp].text))
  }

  /** The steps of one `li` of a track wrapper (lines 83-124). */
  function LiOps(day: Label, time: Label, li: Node): Result<seq<Op>, Fault> {
    match FirstFrom(li.children, 0, "h4")
    case None => Ok([])
    case Some(k) =>
      var track := li.children[k].text;
      if li.cls == Some(EmptyRoom) then Ok([Put(day, track, None)])
      else
        match TalkOf(day, time, li, k)
        case Err(e) => Err(e)
        case Ok(talk) => Ok([Put(day, track, Some(talk))])
  }

  /** The steps of the children of a track wrapper, in order (line 82). */
  function LisOps(day: Label, time: Label, lis: seq<Node>): Result<seq<Op>, Fault>
    decreases |lis|
  {
    if lis == [] then Ok([])
    else
      match LisOps(day, time, lis[..|lis| - 1])
      case Err(e) => Err(e)
      case Ok(ops) =>
        match LiOps(day, time, lis[|lis| - 1])
        case Err(e) => Err(e)
        case Ok(more) => Ok(ops + more)
  }

  /** The steps of the sibling `run[j]` of a day heading: nothing unless it is
      a time heading, whose track wrapper is the node right after it (lines 76-82). */
  function SiblingOps(day: Label, run: seq<Node>, j: nat): Result<seq<Op>, Fault>
    requires j < |run|
  {
    if run[j].tag != "h3" then Ok([])
    else if j + 1 >= |run| then Err(NoTrackWrapper)
    else LisOps(day, run[j].text, run[j + 1].children)
  }

  /** The steps of the siblings `run[lo..hi]`, in order. */
  function RunOps(day: Label, run: seq<Node>, lo: nat, hi: nat): Result<seq<Op>, Fault>
    requires lo <= hi <= |run|
    decreases hi
  {
    if hi == lo then Ok([])
    else
      match RunOps(day, run, lo, hi - 1)
      case Err(e) => Err(e)
      case Ok(ops) =>
        match SiblingOps(day, run, hi - 1)
        case Err(e) => Err(e)
        case Ok(more) => Ok(ops + more)
  }

  /** Where the sibling walk of the day heading at `c` stops: the next `h2`. */
  function DayEnd(c: Cursor): nat
    requires ValidCursor(c)
  {
    StopAt(c.run, c.at + 1, "h2")
  }

  /** The steps of one day heading (lines 68-74). */
  function DayOps(c: Cursor): Result<seq<Op>, Fault>
    requires ValidCursor(c)
  {
    var day := c.run[c.at].text;
    match RunOps(day, c.run, c.at + 1, DayEnd(c))
    case Err(e) => Err(e)
    case Ok(ops) => Ok([OpenDay(day)] + ops)
  }

  function DaysOps(cs: seq<Cursor>): Result<seq<Op>, Fault>
    requires AllValid(cs)
    decreases |cs|
  {
    if cs == [] then Ok([])
    else
      match DaysOps(cs[..|cs| - 1])
      case Err(e) => Err(e)
      case Ok(ops) =>
        match DayOps(cs[|cs| - 1])
        case Err(e) => Err(e)
        case Ok(more) => Ok(ops + more)
  }

  /** The whole walk of the schedule document. */
  function ScheduleOps(root: Node): Result<seq<Op>, Fault> {
    DaysOps(Select(root, DayQuery))
  }

  // ------------------------------------------- what a sequence of steps builds

  /** The keys of `presentations_by_day_track`, in insertion order. */
  function DaysOf(ops: seq<Op>): seq<Label>
    decreases |ops|
  {
    if ops == [] then []
    else
      var prev := DaysOf(ops[..|ops| - 1]);
      var d := ops[|ops| - 1].day;
      if d in prev then prev else prev + [d]
  }

  /** The keys of `presentations_by_day_track[day]`, in insertion order. */
  function TracksOf(ops: seq<Op>, day: Label): seq<Label>
    decreases |ops|
  {
    if ops == [] then []
    else
      var prev := TracksOf(ops[..|ops| - 1], day);
      var op := ops[|ops| - 1];
      if op.Put? && op.day == day && op.track !in prev then prev + [op.track] else prev
  }

  /** `presentations_by_day_track[day][track]`, as values. */
  function SlotsOf(ops: seq<Op>, day: Label, track: Label): seq<Slot>
    decreases |ops|
  {
    if ops == [] then []
    else
      var prev := SlotsOf(ops[..|ops| - 1], day, track);
      var op := ops[|ops| - 1];
      if op.Put? && op.day == day && op.track == track then prev + [op.slot] else prev
  }

  /** Where `presentations_by_title[key]` points: the slot appended by the
      last step whose presentation's title has that key. */
  function LastPos(ops: seq<Op>, key: string): Option<Pos>
    decreases |ops|
  {
    if ops == [] then None
    else
      var init := ops[..|ops| - 1];
      var op := ops[|ops| - 1];
      if IsTalkWithKey(op, key) then Some(Pos(op.day, op.track, |SlotsOf(init, op.day, op.track)|))
      else LastPos(init, key)
  }

  // ---------------------------------------------------- properties of the walk

  /** The `li`s that have a track heading. */
  function Tracked(lis: seq<Node>): (r: seq<Node>)
    ensures forall i | 0 <= i < |r| :: FirstFrom(r[i].children, 0, "h4").Some?
    decreases |lis|
  {
    if lis == [] then []
    else Tracked(lis[..|lis| - 1]) + (if FirstFrom(lis[|lis| - 1].children, 0, "h4").Some? then [lis[|lis| - 1]] else [])
  }

  /** The text of the first track heading of an `li` that has one. */
  function TrackName(li: Node): Label
    requires FirstFrom(li.children, 0, "h4").Some?
  {
    li.children[FirstFrom(li.children, 0, "h4").value].text
  }

  /** A track wrapper appends exactly one entry per `li` with a track heading,
      in order, to that heading's track: None exactly for the `li`s marked as
      empty rooms. An `li` without a track heading appends nothing. */
  lemma {:induction false} OneSlotPerTrackedLi(day: Label, time: Label, lis: seq<Node>)
    requires LisOps(day, time, lis).Ok?
    ensures var ops := LisOps(day, time, lis).value;
      && |ops| == |Tracked(lis)|
      && forall i | 0 <= i < |ops| ::
           && ops[i].Put? && ops[i].day == day
           && ops[i].track == TrackName(Tracked(lis)[i])
           && (ops[i].slot.None? <==> Tracked(lis)[i].cls == Some(EmptyRoom))
  {
    if lis != [] {
      var init := lis[..|lis| - 1];
      OneSlotPerTrackedLi(day, time, init);
      var ops: seq<Op> := LisOps(day, time, init).value;
      var more: seq<Op> := LiOps(day, time, lis[|lis| - 1]).value;
      var t := Tracked(init);
      var extra: seq<Node> := if FirstFrom(lis[|lis| - 1].children, 0, "h4").Some? then [lis[|lis| - 1]] else [];
      assert Tracked(lis) == t + extra;
      assert LisOps(day, time, lis).value == ops + more;
      forall i | 0 <= i < |ops + more|
        ensures (ops + more)[i].Put? && (ops + more)[i].day == day
        ensures (ops + more)[i].track == TrackName((t + extra)[i])
        ensures ((ops + more)[i].slot.None? <==> (t + extra)[i].cls == Some(EmptyRoom))
      {
        if i >= |ops| {
          assert (ops + more)[i] == more[0] && (t + extra)[i] == extra[0];
        } else {
          assert (ops + more)[i] == ops[i] && (t + extra)[i] == t[i];
        }
      }
    }
  }

  /** A track wrapper's walk fails exactly when one of its `li`s fails. */
  lemma {:induction false} LisFailIff(day: Label, time: Label, lis: seq<Node>)
    ensures LisOps(day, time, lis).Err? <==> exists i | 0 <= i < |lis| :: LiOps(day, time, lis[i]).Err?
  {
    if lis != [] {
      var init := lis[..|lis| - 1];
      LisFailIff(day, time, init);
      if LisOps(day, time, init).Err? {
        var i :| 0 <= i < |init| && LiOps(day, time, init[i]).Err?;
        assert lis[i] == init[i];
      } else if LiOps(day, time, lis[|lis| - 1]).Ok? {
        forall i | 0 <= i < |lis| ensures LiOps(day, time, lis[i]).Ok? {
          if i < |init| { assert lis[i] == init[i]; }
        }
      }
    }
  }

  /** An `li` fails only when it has a track heading and is not an empty room. */
  lemma LiFailsOnlyForTalks(day: Label, time: Label, li: Node)
    requires LiOps(day, time, li).Err?
    ensures FirstFrom(li.children, 0, "h4").Some? && li.cls != Some(EmptyRoom)
  {
  }

  /** The sibling walk depends on nothing past the next `h2`. */
  lemma {:induction false} RunOpsLocal(day: Label, run: seq<Node>, run': seq<Node>, lo: nat, hi: nat)
    requires lo <= hi < |run| && hi < |run'|
    requires forall j | lo <= j <= hi :: run[j] == run'[j]
    ensures RunOps(day, run, lo, hi) == RunOps(day, run', lo, hi)
  {
    if hi > lo {
      RunOpsLocal(day, run, run', lo, hi - 1);
    }
  }

  /** A day's steps stop at the next `h2`: whatever follows it can be replaced
      without changing them. That `h2` is still read when the time heading just
      before it takes it as its track wrapper. */
  lemma DayStopsAtNextH2(c: Cursor, rest: seq<Node>)
    requires ValidCursor(c) && DayEnd(c) < |c.run|
    ensures ValidCursor(Cursor(c.run[..DayEnd(c) + 1] + rest, c.at))
    ensures DayOps(c) == DayOps(Cursor(c.run[..DayEnd(c) + 1] + rest, c.at))
  {
    var j := DayEnd(c);
    var run' := c.run[..j + 1] + rest;
    var c' := Cursor(run', c.at);
    assert forall i | 0 <= i <= j :: c.run[i] == run'[i];
    StopAtLocal(c.run, run', c.at + 1, j);
    RunOpsLocal(c.run[c.at].text, c.run, run', c.at + 1, j);
  }

  lemma StopAtLocal(run: seq<Node>, run': seq<Node>, lo: nat, j: nat)
    requires lo <= j < |run| && j < |run'| && StopAt(run, lo, "h2") == j
    requires forall i | lo <= i <= j :: run[i] == run'[i]
    ensures StopAt(run', lo, "h2") == j
  {
  }

  lemma AppendAssoc<T>(a: seq<T>, b: seq<T>, c: seq<T>)
    ensures (a + b) + c == a + (b + c)
  {
  }

  /** One more sibling of the sibling walk. */
  lemma RunStepOk(day: Label, run: seq<Node>, lo: nat, j: nat, done: seq<Op>, more: seq<Op>)
    requires lo <= j < |run| && RunOps(day, run, lo, j) == Ok(done) && SiblingOps(day, run, j) == Ok(more)
    ensures RunOps(day, run, lo, j + 1) == Ok(done + more)
  {
  }

  lemma RunStepErr(day: Label, run: seq<Node>, lo: nat, j: nat, hi: nat, e: Fault)
    requires lo <= j < hi <= |run| && RunOps(day, run, lo, j).Ok? && SiblingOps(day, run, j) == Err(e)
    ensures RunOps(day, run, lo, hi) == Err(e)
  {
    RunErrPrefix(day, run, lo, j + 1, hi, e);
  }

  /** A sibling walk that breaks on `h2` goes on past a sibling that is not one... */
  lemma StopStep(run: seq<Node>, lo: nat, j: nat)
    requires lo <= j <= StopAt(run, lo, "h2") && j < |run| && run[j].tag != "h2"
    ensures j + 1 <= StopAt(run, lo, "h2")
  {
  }

  /** ... and stops at the first one, or at the end of the run. */
  lemma StopExit(run: seq<Node>, lo: nat, j: nat)
    requires lo <= j <= StopAt(run, lo, "h2") && (j >= |run| || run[j].tag == "h2")
    ensures j == StopAt(run, lo, "h2")
  {
  }

  // ------------------------------------ a failure of a part fails the whole walk

  lemma {:induction false} LisErrPrefix(day: Label, time: Label, lis: seq<Node>, k: nat, e: Fault)
    requires k <= |lis| && LisOps(day, time, lis[..k]) == Err(e)
    ensures LisOps(day, time, lis) == Err(e)
  {
    if k < |lis| {
      var init := lis[..|lis| - 1];
      assert init[..k] == lis[..k];
      LisErrPrefix(day, time, init, k, e);
    } else {
      assert lis[..k] == lis;
    }
  }

  lemma {:induction false} RunErrPrefix(day: Label, run: seq<Node>, lo: nat, j: nat, hi: nat, e: Fault)
    requires lo <= j <= hi <= |run| && RunOps(day, run, lo, j) == Err(e)
    ensures RunOps(day, run, lo, hi) == Err(e)
    decreases hi - j
  {
    if j < hi {
      RunErrPrefix(day, run, lo, j + 1, hi, e);
    }
  }

  lemma {:induction false} DaysErrPrefix(cs: seq<Cursor>, k: nat, e: Fault)
    requires AllValid(cs)
    requires k <= |cs| && DaysOps(cs[..k]) == Err(e)
    ensures DaysOps(cs) == Err(e)
  {
    if k < |cs| {
      var init := cs[..|cs| - 1];
      assert init[..k] == cs[..k];
      DaysErrPrefix(init, k, e);
    } else {
      assert cs[..k] == cs;
    }
  }

  // ------------------------------------------- properties of what is built

  /** Steps only ever append to a track list. */
  lemma {:induction false} SlotsGrow(ops: seq<Op>, m: nat, day: Label, track: Label)
    requires m <= |ops|
    ensures SlotsOf(ops[..m], day, track) <= SlotsOf(ops, day, track)
    decreases |ops| - m
  {
    if m < |ops| {
      var init := ops[..|ops| - 1];
      assert init[..m] == ops[..m];
      SlotsGrow(init, m, day, track);
    } else {
      assert ops[..m] == ops;
    }
  }

  /** The registry entry for a key is the presentation appended by the last
      step whose title has that key (last write wins). */
  lemma {:induction false} LastWriteWins(ops: seq<Op>, j: nat, key: string)
    requires j < |ops| && IsTalkWithKey(ops[j], key)
    requires forall m | j < m < |ops| :: !IsTalkWithKey(ops[m], key)
    ensures LastPos(ops, key) == Some(Pos(ops[j].day, ops[j].track, |SlotsOf(ops[..j], ops[j].day, ops[j].track)|))
    decreases |ops|
  {
    if j < |ops| - 1 {
      var init := ops[..|ops| - 1];
      assert init[j] == ops[j] && init[..j] == ops[..j];
      LastWriteWins(init, j, key);
    }
  }

  /** A key has a registry entry exactly when some appended presentation's
      title has that key, and the entry's position holds such a presentation. */
  lemma {:induction false} LastPosIsTalk(ops: seq<Op>, key: string)
    ensures LastPos(ops, key).None? <==> forall m | 0 <= m < |ops| :: !IsTalkWithKey(ops[m], key)
    ensures LastPos(ops, key).Some? ==>
      var p := LastPos(ops, key).value;
      && p.index < |SlotsOf(ops, p.day, p.track)|
      && SlotsOf(ops, p.day, p.track)[p.index].Some?
      && CleanTitle(SlotsOf(ops, p.day, p.track)[p.index].value.title) == key
    decreases |ops|
  {
    if ops != [] {
      var init := ops[..|ops| - 1];
      var op := ops[|ops| - 1];
      LastPosIsTalk(init, key);
      if !IsTalkWithKey(op, key) {
        assert forall m | 0 <= m < |init| :: init[m] == ops[m];
        if LastPos(init, key).Some? {
          var p := LastPos(init, key).value;
          assert init == ops[..|ops| - 1];
          SlotsGrow(ops, |ops| - 1, p.day, p.track);
        }
      }
    }
  }

  /** A day no step has named has no tracks and no slots. */
  lemma {:induction false} UnseenDay(ops: seq<Op>, day: Label, track: Label)
    requires day !in DaysOf(ops)
    ensures TracksOf(ops, day) == [] && SlotsOf(ops, day, track) == []
    decreases |ops|
  {
    if ops != [] {
      UnseenDay(ops[..|ops| - 1], day, track);
    }
  }

  /** A track no step has named for a day has no slots there. */
  lemma {:induction false} UnseenTrack(ops: seq<Op>, day: Label, track: Label)
    requires track !in TracksOf(ops, day)
    ensures SlotsOf(ops, day, track) == []
    decreases |ops|
  {
    if ops != [] {
      UnseenTrack(ops[..|ops| - 1], day, track);
    }
  }

  // ------------------------------------- where the walk stops with an exception

  /** A failing last day makes the walk over the days up to it fail. */
  lemma DaysStepErr(cs: seq<Cursor>, e: Fault)
    requires AllValid(cs) && cs != [] && DaysOps(cs[..|cs| - 1]).Ok? && DayOps(cs[|cs| - 1]) == Err(e)
    ensures DaysOps(cs) == Err(e)
  {
  }

  /** A day that fails fails the whole walk. */
  lemma DayAborts(cs: seq<Cursor>, i: nat, e: Fault)
    requires AllValid(cs) && i < |cs| && DaysOps(cs[..i]).Ok? && DayOps(cs[i]) == Err(e)
    ensures DaysOps(cs) == Err(e)
  {
    var upto := cs[..i + 1];
    assert upto[..|upto| - 1] == cs[..i] && upto[|upto| - 1] == cs[i];
    DaysStepErr(upto, e);
    DaysErrPrefix(cs, i + 1, e);
  }

  /** A sibling before the next `h2` that fails fails its day. */
  lemma SiblingAborts(c: Cursor, j: nat, e: Fault)
    requires ValidCursor(c) && c.at + 1 <= j < DayEnd(c)
    requires RunOps(c.run[c.at].text, c.run, c.at + 1, j).Ok? && SiblingOps(c.run[c.at].text, c.run, j) == Err(e)
    ensures DayOps(c) == Err(e)
  {
    RunStepErr(c.run[c.at].text, c.run, c.at + 1, j, DayEnd(c), e);
  }

  /** An `li` that fails fails the whole walk. */
  lemma LiAborts(cs: seq<Cursor>, i: nat, j: nat, k: nat, e: Fault)
    requires AllValid(cs) && i < |cs| && DaysOps(cs[..i]).Ok?
    requires cs[i].at + 1 <= j < DayEnd(cs[i]) && j + 1 < |cs[i].run| && cs[i].run[j].tag == "h3"
    requires RunOps(cs[i].run[cs[i].at].text, cs[i].run, cs[i].at + 1, j).Ok?
    requires k < |cs[i].run[j + 1].children|
    requires LisOps(cs[i].run[cs[i].at].text, cs[i].run[j].text, cs[i].run[j + 1].children[..k]).Ok?
    requires LiOps(cs[i].run[cs[i].at].text, cs[i].run[j].text, cs[i].run[j + 1].children[k]) == Err(e)
    ensures DaysOps(cs) == Err(e)
  {
    var c := cs[i];
    var day := c.run[c.at].text;
    var lis := c.run[j + 1].children;
    var upto := lis[..k + 1];
    assert upto[..|upto| - 1] == lis[..k] && upto[|upto| - 1] == lis[k];
    LisErrPrefix(day, c.run[j].text, lis, k + 1, e);
    SiblingAborts(c, j, e);
    DayAborts(cs, i, e);
  }

  /** A time heading that is the last sibling fails the whole walk. */
  lemma WrapperMissingAborts(cs: seq<Cursor>, i: nat, j: nat)
    requires AllValid(cs) && i < |cs| && DaysOps(cs[..i]).Ok?
    requires cs[i].at + 1 <= j < DayEnd(cs[i]) && j + 1 >= |cs[i].run| && cs[i].run[j].tag == "h3"
    requires RunOps(cs[i].run[cs[i].at].text, cs[i].run, cs[i].at + 1, j).Ok?
    ensures DaysOps(cs) == Err(NoTrackWrapper)
  {
    SiblingAborts(cs[i], j, NoTrackWrapper);
    DayAborts(cs, i, NoTrackWrapper);
  }
}
