# DEF CON 23 schedule to iCalendar: a verified model

`defcon.py` reads two pages of the DEF CON 23 web site and writes them as one iCalendar
file. The schedule page lists day headings (`h2`), time headings (`h3`) and, after each
time heading, a wrapper of `li` items. Each `li` is one room: a track name (`h4`), then a
title and a speaker. The speakers page holds one `article` per talk.

The script works in four steps, and this project models each of them:

- **Title keys (`clean_title`).** A title is lower-cased, then every character matched by
  `[^a-z^0-9]` is deleted. The second `^` is a literal inside the class, so carets stay.
- **Extraction.** The script walks the day headings and their siblings up to the next
  `h2`. It fills `presentations_by_day_track` (day to track to a list of presentations,
  with None for an empty room). It also fills `presentations_by_title`, keyed by
  `clean_title(title)`. Both hold the same presentation objects.
- **Linking.** For each article with a titled `h2`, the script applies a three-entry alias
  table. It then looks the key up in `presentations_by_title`, which raises KeyError when
  the key is missing. On success it writes the article's text into that presentation's
  `details`, in place.
- **Consolidation.** Each track list is scanned with one slot of lookahead and one of
  lookback. A maximal run of slots with one title becomes one event. Each event has a
  location, a summary, an optional description, a start and an end.

The model has two layers:

- **Pure specifications.** They are functions of the parsed documents:
  - `Extraction.ScheduleOps` is the walk as a sequence of dictionary updates, or its
    exception;
  - `Linking.BioLinks` is the list of `details` writes, or the missing key;
  - `Consolidation.Calendar` is the events;
  - `Outcome.Run` is the whole script.
- **The script's loops, in imperative form.** They are proved against those
  specifications:
  - `Schedule.Extract` builds the two dictionaries of `Dictionaries.Tables`, holding
    `Dictionaries.Presentation` objects whose `details` field is mutable;
  - `Schedule.LinkBios` writes `details` into the heap objects;
  - `Schedule.Consolidate` reads them back;
  - `Schedule.Convert` chains the three and is proved equal to `Outcome.Run`.

The dictionary invariant `Dictionaries.Holds` ties the dictionaries to the steps that
built them. It is what makes the aliasing visible: a `details` write through
`presentations_by_title` shows up in the track lists, but only for the presentation
registered last under that key.

Modules:
- `titles.dfy`: `clean_title`.
- `dates.dfy`: the `dates` table, `mkdate` and the `%H:%M` parse.
- `markup.dfy`: the parsed document.
- `extraction.dfy`: the schedule walk.
- `linking.dfy`: the alias table and the biography walk.
- `consolidation.dfy`: the events.
- `dictionaries.dfy`: the two dictionaries and their invariant.
- `outcome.dfy`: the whole run as a function.
- `schedule.dfy`: the loops as methods.
- `wrappers.dfy`: Option and Result.

Timestamps are whole minutes since 2015-08-01 00:00, venue wall-clock time.

## Behaviour the model keeps

Each of these follows from the code as written, and the model keeps it:

- **Characters kept by the key.** The class `[^a-z^0-9]` keeps `^` as well as ASCII
  letters and digits. Under IGNORECASE it also keeps the four non-ASCII letters that
  Python's `re` folds onto `i`, `s` and `k`. Two of them, U+0131 and U+017F, survive
  lower-casing and so can appear in a key (lines 50-52).
- **Empty rooms.** An `li` is first searched for an `h4`. One without an `h4` adds nothing
  to any track list, even when its class is `emptyRoom` (lines 84-93).
- **Start of a run.** The start looks back a single slot, so the event of a run of three
  or more slots with one title starts at the run's second-to-last slot (lines 172,
  183-187).
- **End of an event.** The end falls back to start + 1 hour when the next slot is an empty
  room, as well as when there is no next slot. That start is the looked-back one (lines
  168, 189-194).
- **Track wrapper.** Only the node `getnext()` returns after each `h3` is read as its
  wrapper, even when that node is the next `h2` (line 81).

## Model

| member | source | states |
|---|---|---|
| Titles.CleanTitle | defcon.py:50-52 | transcribes `clean_title`: `Lower` then `Strip`, one character at a time; what it keeps is proved by the Titles lemmas below |
| Titles.KeyAlphabet | defcon.py:50-52 | every character of a key is `a-z`, `0-9`, `^`, U+0131 or U+017F |
| Titles.AsciiKeyAlphabet | defcon.py:50-52 | the key of an ASCII title contains only `a-z`, `0-9` and `^` |
| Titles.CleanTitleIdempotent | defcon.py:50-52 | `clean_title(clean_title(t)) == clean_title(t)` |
| Titles.KeyIsFixedPoint | defcon.py:50-52 | a string made only of key characters is its own key |
| Titles.CleanTitleConcat | defcon.py:50-52 | the key of a concatenation is the concatenation of the keys |
| Titles.CaseIgnored | defcon.py:50-52 | replacing an ASCII capital by its lower-case letter leaves the key unchanged |
| Titles.PunctuationIgnored | defcon.py:50-52 | inserting a character outside the class leaves the key unchanged |
| Titles.CaretKept | defcon.py:50 | a caret in a title is kept in the key, in place |
| Dates.DayOfMonth | defcon.py:38-43 | `dates[day]` is defined exactly for the four day names, as days 6 to 9 of August 2015 |
| Dates.ConsecutiveDays | defcon.py:38-43 | Thursday, Friday, Saturday and Sunday get consecutive days of the month in that order, so the days' order is their dates' order |
| Dates.MkDate | defcon.py:46-47 | `mkdate` succeeds exactly when the day is in `dates` |
| Dates.ParseClock | defcon.py:113-114 | a parsed time heading has hour < 24 and minute < 60 |
| Dates.ParseFormat | defcon.py:113-114 | every valid time written `HH:MM` parses back to itself |
| Dates.ParseShortHour | defcon.py:113 | an unpadded hour `H:MM` parses too |
| Dates.ParseClockSpelled | defcon.py:113-114 | a time heading parses to a clock only when it is one of that clock's spellings `H:M`, `H:MM`, `HH:M` or `HH:MM` |
| Dates.ParseClockExamples | defcon.py:113 | `24:00` and `10:00 ` raise, and `9:5` parses as 9:05 |
| Dates.StampOrder | defcon.py:46-47 | timestamps order exactly as (day, hour, minute) |
| Dates.StampInjective | defcon.py:46-47 | distinct days and times get distinct timestamps |
| Extraction.TalkOf | defcon.py:95-121 | transcribes the reading of one talk: title (the first link's text if any), speaker, start; the faults of a missing `p`, a bad time, an unknown day, a missing title; `Extraction.LiAborts` proves each ends the walk |
| Extraction.LisOps | defcon.py:82-124 | transcribes the `li` loop under one time heading as the steps of its `li`s in order, or the first fault; `Extraction.OneSlotPerTrackedLi` and `Extraction.LisFailIff` state what it appends and when it raises |
| Extraction.LiOps | defcon.py:83-124 | transcribes the body for one `li`; `Extraction.OneSlotPerTrackedLi` and `Extraction.LiFailsOnlyForTalks` state what it appends and when it raises |
| Extraction.SiblingOps | defcon.py:76-82 | transcribes the body for one sibling of a day heading; `Schedule.ExtractSibling` is proved to follow it step for step |
| Extraction.RunOps | defcon.py:72-82 | transcribes the sibling loop of a day heading as the siblings' steps in order, or the first fault; `Extraction.RunOpsLocal` and `Extraction.SiblingAborts` are its properties |
| Extraction.DayOps | defcon.py:68-74 | transcribes one day heading: open the day, walk the siblings up to the next `h2`; `Extraction.DayStopsAtNextH2` and `Extraction.DayAborts` are its properties |
| Extraction.DaysOps | defcon.py:68-124 | transcribes the loop over day headings as the days' steps in document order, or the first fault; `Extraction.DayAborts` states that a day's fault ends it |
| Extraction.ScheduleOps | defcon.py:66-124 | transcribes the whole schedule walk as its steps or its exception; `Schedule.Extract` is proved to follow it and `Dictionaries.ReplayHolds` gives what its steps build |
| Extraction.LastPos | defcon.py:124 | transcribes the registry overwrite as the position of the last presentation with a key; `Extraction.LastWriteWins` and `Extraction.LastPosIsTalk` are its properties |
| Extraction.OneSlotPerTrackedLi | defcon.py:82-93 | a wrapper appends exactly one slot per `li` with an `h4`, in order, to that `h4`'s track, and the slot is None exactly for `emptyRoom`; an `li` without `h4` appends nothing |
| Extraction.LisFailIff | defcon.py:82-124 | a wrapper's walk raises exactly when one of its `li`s raises |
| Extraction.LiFailsOnlyForTalks | defcon.py:84-93 | an `li` raises only if it has an `h4` and is not an empty room |
| Extraction.RunOpsLocal | defcon.py:72-82 | the sibling walk depends only on the siblings it visits and the one after the last |
| Extraction.DayStopsAtNextH2 | defcon.py:72-74 | a day's steps stop at the next `h2`: everything after it can change without changing them |
| Extraction.SlotsGrow | defcon.py:89-93 | steps only ever append to a track list |
| Extraction.LastWriteWins | defcon.py:124 | the registry entry of a key is the slot appended by the last step whose title has that key |
| Extraction.LastPosIsTalk | defcon.py:117-124 | a key is registered iff some appended presentation has that key, and its entry's position holds such a presentation |
| Extraction.DayAborts | defcon.py:68-74 | an exception in one day ends the whole walk with that exception |
| Extraction.SiblingAborts | defcon.py:72-82 | an exception at a sibling before the next `h2` ends its day |
| Extraction.LiAborts | defcon.py:95-124 | an exception in an `li` (no title, no speaker, bad time, unknown day, untitled) ends the whole walk |
| Extraction.WrapperMissingAborts | defcon.py:79-82 | a time heading with no next sibling ends the whole walk |
| Linking.AliasTitle | defcon.py:140-145 | transcribes the alias table; `Linking.AliasChangesKeyOnlyForKvm` states which entries change a key |
| Linking.TrailingStopKeepsKey | defcon.py:140-141 | dropping a trailing full stop leaves the key unchanged |
| Linking.TrailingWordLengthensKey | defcon.py:144-145 | appending a space and a word that starts with a capital letter makes the key strictly longer |
| Linking.AliasChangesKeyOnlyForKvm | defcon.py:140-145 | the alias table changes the key iff the title is the KVM talk's |
| Linking.ArticleTitle | defcon.py:131-138 | an article is skipped iff it has no `h2` child or its first `h2` has no text or empty text |
| Linking.ArticleLink | defcon.py:131-150 | transcribes one article: skipped, KeyError, or one `details` write; `Schedule.LinkArticle` is proved equal to it |
| Linking.Links | defcon.py:130-150 | transcribes the article loop as the links of the articles in order, or the first missing key; `Linking.LinksFailIff`, `Linking.LinksErrPrefix` and `Linking.LastDetailsFromArticle` are its properties |
| Linking.BioLinks | defcon.py:130-150 | transcribes the biography loop as its writes or its KeyError; `Linking.LinksFailIff` and `Linking.LastDetailsFromArticle` are its properties and `Schedule.LinkBios` is proved against it |
| Linking.LinksFailIff | defcon.py:130-148 | the walk raises KeyError iff some titled article's aliased key is unregistered; on success every link names a registered key |
| Linking.LinksErrPrefix | defcon.py:148 | after a KeyError no later article is read |
| Linking.DetailsAfterStep | defcon.py:150 | one write sets its own key's `details` and no other key's |
| Linking.LastDetailsFromArticle | defcon.py:130-150 | after a walk that succeeds, a key has `details` iff some titled article's aliased title has that key, and they are the text of the last such article |
| Consolidation.Emits | defcon.py:164-170 | transcribes the two `continue`s; `Consolidation.EmitIndicesExact` and `Consolidation.RunEmitsAtLastSlot` are its properties |
| Consolidation.StartAt | defcon.py:183-187 | transcribes the one-slot lookback; `Consolidation.RunEvent` states where a run's event starts |
| Consolidation.EndAt | defcon.py:189-194 | transcribes the end: the next slot's start, else an hour after the start; `Consolidation.RunEvent` and `Consolidation.EventsEndAfterStart` are its properties |
| Consolidation.EventAt | defcon.py:172-196 | transcribes one event's fields; `Consolidation.EventsOfEmittingSlots` ties it to the track's events |
| Consolidation.TrackEvents | defcon.py:164-196 | transcribes the index loop over one track list; `Schedule.ConsolidateTrack` is proved equal to it |
| Consolidation.DayEvents | defcon.py:161-196 | transcribes the track loop of one day as its tracks' events in track order; `Schedule.ConsolidateDay` is proved equal to it |
| Consolidation.Calendar | defcon.py:159-161 | transcribes the loops over days and tracks in insertion order; `Schedule.Consolidate` is proved equal to it |
| Consolidation.Description | defcon.py:177-181 | DESCRIPTION is added iff `details` is present and non-empty |
| Consolidation.EmitIndicesExact | defcon.py:164-170 | an index emits iff its slot is a presentation and the next slot is not a presentation with the same title; emitting indices are increasing |
| Consolidation.EventsOfEmittingSlots | defcon.py:164-196 | a track's events are one per emitting index, in index order, each built from its slot |
| Consolidation.RunEmitsAtLastSlot | defcon.py:164-170 | a maximal run of one title emits exactly once, at its last slot |
| Consolidation.RunEvent | defcon.py:172-194 | a run's event starts at its first slot only if it has at most two slots, else at the second-to-last; it ends at the next slot's start, or an hour after its start when the next slot is missing or an empty room |
| Consolidation.EventsEndAfterStart | defcon.py:183-194 | on a track in time order every event ends after it starts |
| Consolidation.TwoSlotTalkExample | defcon.py:164-194 | a talk over two slots then another talk gives one event spanning both slots with the second slot's details, then an hour-long last event |
| Consolidation.ThreeSlotTalkExample | defcon.py:172-187 | a talk over three slots gives one event that starts at its second slot |
| Consolidation.CalendarOfLists | defcon.py:159-164 | the calendar depends on the track lists only through their contents |
| Dictionaries.Presentation.constructor | defcon.py:117-121 | a new presentation has the given start, title and speaker and no `details` |
| Dictionaries.WithDay | defcon.py:70 | `setdefault(day, {})` opens the day and leaves every track list and the registry unchanged |
| Dictionaries.WithSlot | defcon.py:89-124 | appending grows exactly the one track list by the slot; the registry gains the presentation under its key |
| Dictionaries.Snapshot | defcon.py:159-164 | the lists consolidation reads are the current contents of the presentation objects |
| Dictionaries.WithDayHolds | defcon.py:70 | opening a day keeps the dictionaries equal to what the steps build |
| Dictionaries.WithSlotHolds | defcon.py:89-124 | appending a slot keeps the dictionaries equal to what the steps build, and places the new object at the end of its list |
| Dictionaries.ReplayHolds | defcon.py:66-124 | any sequence of updates that applies builds days, track orders and track lists as its steps describe; the registry holds each key's last presentation, which is the object in the track list |
| Dictionaries.PlacedObjects | defcon.py:123-124 | each registry entry is filed under its own key, and every presentation in a track list has one place |
| Outcome.Run | defcon.py:66-196 | transcribes the whole script on the two parsed documents: the walk's exception, a biography KeyError, or the calendar; `Schedule.Convert` is proved equal to it |
| Outcome.KeysHavePositions | defcon.py:124 | a key is in `presentations_by_title` iff it has a registry position |
| Schedule.ExtractLi | defcon.py:83-124 | one `li` does what `LiOps` says: nothing, a None slot, or one new presentation appended and registered; otherwise the same exception |
| Schedule.ExtractWrapper | defcon.py:82-124 | the `li` loop applies the wrapper's steps in order, or raises the first exception |
| Schedule.ExtractSibling | defcon.py:76-82 | a non-`h3` sibling is passed over; an `h3` walks the next node as its wrapper, or raises when there is none |
| Schedule.ExtractRun | defcon.py:72-82 | the sibling loop applies the steps up to the next `h2`, or raises the first exception |
| Schedule.ExtractDay | defcon.py:68-82 | a day heading opens its day, then applies its siblings' steps |
| Schedule.Extract | defcon.py:66-124 | extraction raises iff the walk does, with the same exception; otherwise the dictionaries are those the walk's steps build, holding new objects with no `details` |
| Schedule.LinkArticle | defcon.py:131-150 | one article: skipped, KeyError, or `details` set on exactly the registered presentation of its key |
| Schedule.LinkBios | defcon.py:130-150 | the article loop raises iff the biography walk does; otherwise each registered presentation's `details` are its key's last link's, or unchanged |
| Schedule.ConsolidateTrack | defcon.py:164-196 | the index loop yields exactly the track's events |
| Schedule.ConsolidateDay | defcon.py:161-196 | the track loop yields the day's events, track after track |
| Schedule.Consolidate | defcon.py:159-196 | the day loop yields the calendar of the current dictionaries, day after day |
| Schedule.TablesAgree | defcon.py:66-124 | the registry's keys, the days and the track orders are those the steps build |
| Schedule.LinkedEntry | defcon.py:150 | after linking, a track list entry holds `details` only if it is its key's registered presentation |
| Schedule.LinkedEntries | defcon.py:150 | after linking, the track lists hold what the pure run reads |
| Schedule.Convert | defcon.py:66-196 | the script ends with the walk's exception, or the KeyError of an unregistered biography key, or exactly the calendar of the pure run |

## Left out

- Downloading and caching the two pages (`get_url`, lines 20-35 and 55-59), `win_unicode_console` (lines 9-10) and writing the `.ics` file (lines 198-200): these are I/O. The model starts from the two parsed documents and ends with the list of events.
- HTML parsing with lxml (lines 62-64, 127-128): a document is a `Markup.Node` tree of tag, class, text (None where lxml's `.text` is None) and children.
- The XPath queries (lines 68 and 130) are a document-order search for nodes with a given tag and class.
- `itertext()` (line 150) is the node's `allText` field and is taken as given.
- `li.get('class')` compares the whole attribute value, as the code does.
- The icalendar library (lines 153-157, 174-196) is left out. An event is a record of LOCATION, SUMMARY, DESCRIPTION, DTSTART and DTEND. The PRODID and VERSION properties and the serialization are not modelled.
- pytz and datetime (lines 7, 114-115, 194) are left out. A start is whole minutes of wall-clock time, and `timedelta(hours=1)` is 60 minutes. Time zones, including pytz's LMT offset when `tzinfo=vegas` is passed directly, are not modelled.
- Dates.ParseClock: `time.strptime`'s `\d` also accepts non-ASCII decimal digits. The model accepts ASCII digits only.
- Titles.CleanTitle: `str.lower` is modelled for the ASCII capitals and for the two characters whose lower-case form the class matches (U+0130 and U+212A). Every other character is kept as it is. This gives the same key as Python, but `Lower` is not Python's full lower-casing.
- `print` logging (lines 22, 147, 160-162, 181) and the unused `title_href` (line 105) are not modelled.
- Schedule.ExtractLi, Schedule.ExtractWrapper, Schedule.ExtractSibling, Schedule.ExtractRun, Schedule.ExtractDay and Schedule.Extract: when the walk raises, the partly filled dictionaries are not described. The script stops there.
- Schedule.LinkBios: when a key is missing, the `details` already written to earlier articles' presentations are not described. The script stops there.
- The identity of dictionary objects is not modelled. `presentations_by_day_track`, its inner dicts and `presentations_by_title` are values updated by reassignment; only the presentation objects live on the heap. No two names in the script share one of those dicts, so nothing is lost.
