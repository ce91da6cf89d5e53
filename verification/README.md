# BandLeader bookkeeping, modelled in Dafny

`BandLeader` drives the Bandcamp discovery page through a headless browser:
it keeps the list of visible tracks, plays, pauses and skips them, pages
through the catalogue, and a background thread records every track it sees
playing into a history "database" that is written to a CSV file with a
header row.

This project models the bookkeeping of that class as a functional state
machine. The state (`BandLeader.Leader`) holds the four fields that matter:
the current track number, the length of the track list, the record of the
last track seen playing, and the history. Each operation is a pure function
from a state and what the browser shows to the next state plus the clicks
it issues:

- `Catalogue`: the horizontal-visibility filter that builds the track list,
  and the page-label match of `more_tracks`;
- `Player`: the `is_playing` class test and `currently_playing`, including
  the query-string stripping of the two links and every way a read can fail;
- `TrackRecords`: the six-field `TrackRec`, the rows `save_db` writes and
  the rows the constructor loads;
- `BandLeader`: `play`, `pause`, `play_next`, `more_tracks`, `tracks`, one
  `_update_db` tick, the constructor, and sessions made of any sequence of
  whole ticks and foreground calls;
- `Text`: the Python string primitives used above (`isspace`, `lower`,
  `strip`, `find`, `str(int)`, `split('?')[0]`).

The browser is replaced by inputs: the play button's class attribute, the
fields of the now-playing panel, the container geometry and item positions,
and the labels of the page controls. The clock (`ctime()`) is an input
string. A page read that raises and is swallowed by the source is an absent
(`None`) input.

## Model

| member | source | states |
|---|---|---|
| `TrackRecords.FromRow` | utils/BandLeader.py:41 | a row becomes a record exactly when it has six fields, and that record's fields are the row; otherwise the load fails naming the row's width |
| `TrackRecords.SaveRows` | utils/BandLeader.py:71-76 | the written file is the six-field header followed by one row per history entry, in history order |
| `TrackRecords.LoadRecords` | utils/BandLeader.py:41 | loading succeeds exactly when every row has six fields; then it yields one record per row, in order, each record's fields being its row; otherwise the error names the first malformed row, the one where the comprehension raises |
| `TrackRecords.LoadRows` | utils/BandLeader.py:37-41 | an empty file fails (there is no header to skip); otherwise the first row is skipped unchecked and the rest are loaded |
| `TrackRecords.SaveLoadRoundTrip` | utils/BandLeader.py:71-76 | loading what `save_db` wrote gives back exactly the same history |
| `TrackRecords.LoadSaveRoundTrip` | utils/BandLeader.py:37-41 | a file that starts with the header and loads is written back row for row by `save_db` |
| `TrackRecords.ToRowFollowsHeader` | utils/BandLeader.py:74-76 | `list(entry)` puts every field under the header column that names it |
| `TrackRecords.ToRowInjective` | utils/BandLeader.py:76 | two records with the same row are the same record, so the row shape loses nothing |
| `Text.Find` | utils/BandLeader.py:178 | `str.find`: -1 exactly when the needle occurs nowhere, otherwise an index where it occurs with no occurrence before it |
| `Text.StripQuery` | utils/BandLeader.py:190 | `href.split('?')[0]` is a prefix of the href without any `'?'`, ends just before the first `'?'`, and is the whole href when it has no `'?'` |
| `Text.StripQueryIdempotent` | utils/BandLeader.py:193 | stripping an already stripped link changes nothing |
| `Text.Strip` | utils/BandLeader.py:136 | `str.strip` returns the slice starting after the leading whitespace, with only whitespace removed around it and no whitespace at either end |
| `Text.StripPadding` | utils/BandLeader.py:136 | `str.strip` removes exactly the whitespace around a text that neither starts nor ends with whitespace |
| `Text.LowerKeepsPadding` | utils/BandLeader.py:136 | `str.lower` leaves whitespace alone and never turns a non-whitespace end into whitespace |
| `Text.IntToStringRoundTrip` | utils/BandLeader.py:136 | `str(page)` for an int reads back as that int |
| `Text.IntToStringInjective` | utils/BandLeader.py:136 | two different page numbers never render as the same text |
| `Text.IntToString` | utils/BandLeader.py:136 | `str(n)` is non-empty, starts with a minus sign exactly for a negative `n`, and is otherwise decimal digits without leading zeros (`"0"` is the only text starting with `0`, and no `-0`) |
| `Text.LowerChar` | utils/BandLeader.py:136 | each upper-case ASCII letter becomes its lower-case letter of the alphabet, every other character is kept (non-ASCII letters included), and whitespace stays whitespace |
| `Text.Lower` | utils/BandLeader.py:136 | `str.lower` keeps the length and lowers every character in place (ASCII letters) |
| `Catalogue.Visible` | utils/BandLeader.py:103-108 | the track list holds exactly the items with `left <= x < left + width`, and no more items than were found |
| `Catalogue.VisibleAppend` | utils/BandLeader.py:108 | the filter keeps page order: filtering a concatenation concatenates the filtered parts |
| `Catalogue.VisibleSnoc` | utils/BandLeader.py:108 | one more discovered item joins the end of the track list exactly when it lies in the band |
| `Catalogue.VisibleKeepsAll` | utils/BandLeader.py:108 | the filter drops nothing exactly when every item lies inside the container's band |
| `Catalogue.VisibleTracks` | utils/BandLeader.py:102-108 | the loop over the discovered items builds exactly the filtered list |
| `Catalogue.PageText` | utils/BandLeader.py:136 | `str(page)`: a string page is its own text; an int page's text is `str` of the int, its canonical decimal rendering, which reads back as that int |
| `Catalogue.Selects` | utils/BandLeader.py:136 | the comprehension's test: a label selects a page only when `str(page)` has no upper-case letter and no surrounding whitespace |
| `Catalogue.Normalize` | utils/BandLeader.py:136 | a lowered and stripped label has no upper-case letter and no whitespace at either end |
| `Catalogue.NormalizeBlank` | utils/BandLeader.py:136 | a label made only of whitespace normalises to the empty text |
| `Catalogue.NormalizeCanonical` | utils/BandLeader.py:136 | a label already lower-case and without surrounding whitespace is left as it is |
| `Catalogue.NormalizeIgnoresPadding` | utils/BandLeader.py:136 | whitespace around a label changes nothing: the label normalises to its lower-case form |
| `Catalogue.NextSelectedDespitePadding` | utils/BandLeader.py:129-136 | the default `more_tracks('next')` is answered by a control labelled "Next", "NEXT" or "next" with any surrounding whitespace |
| `Catalogue.NormalizeNeverGives` | utils/BandLeader.py:136 | no label normalises to a text holding an upper-case letter or surrounding whitespace |
| `Catalogue.FindPage` | utils/BandLeader.py:135-136 | picks the first control whose normalised label equals `str(page)`, and nothing exactly when no label does |
| `Catalogue.UnselectablePage` | utils/BandLeader.py:135-136 | a page text with an upper-case letter or with surrounding whitespace (`more_tracks('Next')`) never selects anything |
| `Player.IsPlaying` | utils/BandLeader.py:173-178 | playback is reported exactly when the button's class contains the text "playing" |
| `Player.CurrentlyPlaying` | utils/BandLeader.py:180-199 | a record exactly when the button reports playback and every field could be read; its title, artist, album and time are the ones read, and each of its two links is `StripQuery` of its href: the href up to its first `'?'`, the whole href when there is none |
| `BandLeader.Refresh` | utils/BandLeader.py:93-108 | `tracks()` makes the track list exactly as long as the visible-item list of the view, and changes nothing else |
| `BandLeader.MoreTracks` | utils/BandLeader.py:129-140 | at most one click: on the control `FindPage` picks, followed by a refresh; with no such control no click and no refresh |
| `BandLeader.MoreTracksClicksFirstMatch` | utils/BandLeader.py:135-140 | `more_tracks` is a no-op exactly when no label selects the page; otherwise it clicks the first selecting label and the list is refreshed |
| `BandLeader.Play` | utils/BandLeader.py:142-155 | the number becomes `track` only for an int in `1..len(track_list)` (clicking that track), is unchanged for `None`, other types and out-of-range ints; `None` clicks the play button; the record is replaced by a capture only when the button then reports playback; the list and history are untouched |
| `BandLeader.Pause` | utils/BandLeader.py:167-171 | a pause clicks the play button once and keeps number, list and history; it keeps the record whenever playback is not reported afterwards, and otherwise replaces it by the fresh capture, which may be absent |
| `BandLeader.PlayNext` | utils/BandLeader.py:157-165 | before the end of the list it plays and clicks the following track; a track number of at least 1 stays at least 1; the history is untouched; the record becomes the capture when playback is reported afterwards and is kept otherwise |
| `BandLeader.PlayNextChainsPagination` | utils/BandLeader.py:161-165 | past the end of the list it issues the clicks of one `more_tracks('next')` followed by a click on track 1 of the current list, and the number becomes 1 unless that list is empty |
| `BandLeader.PauseKeepsLastRecord` | utils/BandLeader.py:153-171 | after a track was seen playing, a pause that leaves playback inactive keeps that track's record |
| `BandLeader.Tick` | utils/BandLeader.py:79-91 | one `_update_db` appends the record exactly when it is present, differs from the last entry (or the history is empty) and the button reports playback; otherwise the history is unchanged; the old history stays a prefix; nothing else changes; rows are written exactly when it appends, and they are the save of the new history |
| `BandLeader.TickWritesItsHistory` | utils/BandLeader.py:86-88 | the file a tick writes reloads as exactly the history the tick leaves in memory |
| `BandLeader.TickKeepsNoAdjacentDup` | utils/BandLeader.py:81-87 | a tick never makes two consecutive history entries equal |
| `BandLeader.TickIdempotent` | utils/BandLeader.py:81-87 | a second tick on the same observations appends and writes nothing |
| `BandLeader.ApplyKeepsValid` | utils/BandLeader.py:79-171 | any single tick or foreground call keeps the track number at least 1 and the history free of equal neighbours, and only a tick may grow the history, by one entry |
| `BandLeader.RunKeepsValid` | utils/BandLeader.py:59-68 | over any sequence of whole maintenance ticks and foreground calls the track number stays at least 1, the history has no equal neighbours, only grows at its end, and grows by at most one entry per tick |
| `BandLeader.Construct` | utils/BandLeader.py:32-56 | as written: a history file that fails to load is an error, the one the load block gives (no header row for an empty file, the width of the first malformed row otherwise); otherwise the number is 1, the record absent, the list the visible items, and the history empty even when a history was loaded |
| `BandLeader.ConstructDiscardsSavedHistory` | utils/BandLeader.py:37-55 | a non-empty saved history loads and is then dropped; the next append writes a file with only the new entry |
| `BandLeader.ConstructResuming` | utils/BandLeader.py:37-41 | corrected: the same start-up and the same load errors, but the history is the one loaded from the file |
| `BandLeader.ResumeRestoresSavedHistory` | utils/BandLeader.py:37-41 | with the corrected constructor a restart resumes exactly the history the previous run saved |
| `BandLeader.ResumedSessionKeepsHistory` | utils/BandLeader.py:37-41 | a session resumed from a saved history without equal neighbours keeps that history as its prefix and stays valid |
| `BandLeader.DedupScenario` | utils/BandLeader.py:79-88 | `play(2)` on a three-track list then one tick appends the captured record, a repeated tick appends nothing, and a record differing only in its timestamp is appended by the next tick |

## Left out

- Browser plumbing (lines 1-3, 44-47, 102, 107, 125, 135, 148, 177, 187-191): launching Firefox, element lookup, attribute reads and navigation are foreign calls; their results are inputs and the clicks are returned as `Command` values.
- The `_maintain` thread and every `sleep` (lines 59-68, 99, 153): a tick is one atomic step, and a session is any sequence of whole ticks and foreground calls (`BandLeader.Run`). The source's tick is not atomic: it reads `_current_track_record` at lines 81, 82, 84 and 87, with `is_playing()` at line 85 in between. A foreground `play` that sets the record to `None` between the check and line 87 makes the tick append `None`; from then on every `save_db` rewrites the header and the entries before the `None`, then raises at `list(None)` (line 76), so no entry appended after it is ever written; the error is swallowed at line 90. `BandLeader.RunKeepsValid` and `BandLeader.ApplyKeepsValid` hold only for schedules of whole ticks.
- `ctime()` (line 194): the timestamp is an opaque input string.
- CSV quoting and escaping and the file I/O of `save_db` and the constructor (lines 37-41, 72-76): rows are sequences of six unquoted fields; a tick returns the rows it writes, and a failed write is not modelled beyond the in-memory append having already happened.
- Console output of `tracks`, `catalogue_pages` and the error handlers (lines 110-127, 91, 197); `catalogue_pages` does nothing else and is not modelled. The item text is only printed, so `Catalogue.Item` keeps just the position.
- The error path of the printing loop in `tracks()` (line 115): `lines[1]` raises `IndexError` when a visible item's text has no line break. By then line 108 has already replaced the track list, and the error propagates out of `tracks()`, out of `more_tracks()` after its click at line 139, out of `play_next()` before its `play(1)` at line 165, and out of the constructor. `BandLeader.Refresh`, `BandLeader.MoreTracks` and `BandLeader.PlayNext` model only the case where every visible item's text has at least two lines; with a one-line item the page click still happens but no `ClickTrack(0)` follows, unlike what `BandLeader.PlayNextChainsPagination` states.
- A failure of the play-button lookup at line 154 inside `play`: it propagates to the caller, and `Play` takes the class as present.
- A missing results container in `tracks()` (line 102): the exception propagates; `Refresh` always receives a view.
- The first `tracks()` call of the constructor (line 52): its list is replaced by the second call at line 63, so `Construct` takes only the final view.
- `isfile(None)` for the default `csv_path` raises before anything else happens; the constructor takes "no file" or the file's rows.
- Text.IntToString: Python 3.11 and later raise `ValueError` from `str()` on an int of more than 4300 digits; the model renders every int.
- Text.LowerChar: maps only the ASCII letters `A`-`Z`; Python's `str.lower` also lowers non-ASCII letters (`'É'` to `'é'`), which this function keeps unchanged because the Unicode case tables are not modelled.
- Text.Lower: lower-cases ASCII letters only; Python's `str.lower` also maps non-ASCII letters, whose Unicode case tables are not modelled.
- Catalogue.Normalize: lower-cases ASCII letters only; Python's `str.lower` also maps non-ASCII letters. Whitespace follows `str.isspace` in full.
- `str(page)` for page arguments other than strings and ints: `PageArg` has only those two cases.
- The header row is skipped on load without being checked (line 40), as the source does; a history file with a wrong header still loads.

## Findings

| source | as written | input that shows it | evidently intended | confidence | as-written member | corrected member |
|---|---|---|---|---|---|---|
| utils/BandLeader.py:55 | after the history is loaded at line 41 the constructor resets `self.database = []`, so the loaded history is dropped and the first append overwrites the file with one entry | an existing history file holding one saved record | keep the loaded history, so a restart resumes it and later saves extend it | high, not executed | `BandLeader.ConstructDiscardsSavedHistory` | `BandLeader.ConstructResuming` |
