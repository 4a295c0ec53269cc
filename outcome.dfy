/**
 * What a run of the script produces, as a pure function of the two parsed
 * documents: the exception that ends it, or the calendar's events in the
 * order they are added. Between the schedule walk and the consolidation
 * loop sits the biography walk, whose keys are those the schedule
 * registered; a presentation object gets the details of its key only while
 * it is the one `presentations_by_title` holds for that key.
 */
module Outcome {
  import opened Wrappers
  import opened Titles
  import opened Markup
  import opened Extraction
  import opened Linking
  import opened Consolidation

  /** How a run ends without a calendar: an exception of the schedule walk,
      or the KeyError of a biography whose key was never registered. */
  datatype Failure = Malformed(fault: Fault) | Unlinked(key: string)

  /** The keys of `presentations_by_title` after the steps `ops`. */
  function Keys(ops: seq<Op>): set<string>
    decreases |ops|
  {
    if ops == [] then {}
    else
      var op := ops[|ops| - 1];
      Keys(ops[..|ops| - 1]) + if op.Put? && op.slot.Some? then {CleanTitle(op.slot.value.title)} else {}
  }

  /** A key is registered exactly when it has a registry position. */
  lemma {:induction false} KeysHavePositions(ops: seq<Op>, key: string)
    ensures key in Keys(ops) <==> LastPos(ops, key).Some?
    decreases |ops|
  {
    if ops != [] {
      KeysHavePositions(ops[..|ops| - 1], key);
    }
  }

  /** The track orders of all days. */
  function TracksMap(ops: seq<Op>): map<Label, seq<Label>> {
    map d | d in DaysOf(ops) :: TracksOf(ops, d)
  }

  /** The entry the consolidation loop reads at `presentations_by_day_track[d][k][i]`:
      the presentation's details are the last link's for its key if it is
      the registered presentation of that key, and unset otherwise. */
  function EntryAt(ops: seq<Op>, links: seq<Link>, d: Label, k: Label, i: nat): Option<Entry>
    requires i < |SlotsOf(ops, d, k)|
  {
    match SlotsOf(ops, d, k)[i]
    case None => None
    case Some(talk) =>
      var key := CleanTitle(talk.title);
      Some(Entry(talk.start, talk.title, if LastPos(ops, key) == Some(Pos(d, k, i)) then LastDetails(links, key) else None))
  }

  function ListEntries(ops: seq<Op>, links: seq<Link>, d: Label, k: Label): (r: seq<Option<Entry>>)
    ensures |r| == |SlotsOf(ops, d, k)|
    ensures forall i | 0 <= i < |r| :: r[i] == EntryAt(ops, links, d, k, i)
  {
    seq(|SlotsOf(ops, d, k)|, i requires 0 <= i < |SlotsOf(ops, d, k)| => EntryAt(ops, links, d, k, i))
  }

  /** All track lists as the consolidation loop reads them. */
  function EntriesMap(ops: seq<Op>, links: seq<Link>): map<Label, map<Label, seq<Option<Entry>>>> {
    map d | d in DaysOf(ops) :: map k | k in TracksOf(ops, d) :: ListEntries(ops, links, d, k)
  }

  /** The whole script on a schedule document and a biography document. */
  function Run(schedule: Node, bios: Node): Result<seq<Event>, Failure> {
    match ScheduleOps(schedule)
    case Err(e) => Err(Malformed(e))
    case Ok(ops) =>
      match BioLinks(bios, Keys(ops))
      case Err(key) => Err(Unlinked(key))
      case Ok(links) => Ok(Calendar(DaysOf(ops), TracksMap(ops), EntriesMap(ops, links)))
  }
}
