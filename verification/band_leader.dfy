/** The bookkeeping of `BandLeader`: the selected track number, the size of
    the visible track list, the record of the last track seen playing, and
    the history database. Every operation is a pure step from one state to
    the next; what the browser shows is passed in, and the clicks a step
    issues are returned with the new state. */
module BandLeader {
  import opened Maybe
  import opened TrackRecords
  import opened Catalogue
  import opened Player

  /** The `track` argument of `play`: omitted (`None`), an `int`, or a
      value of any other type (a bool, a float, a string, ...). */
  datatype TrackArg = NoTrack | IntTrack(n: int) | OtherArg

  /** A click the core asks the browser for. Indices are 0-based positions
      in the visible track list or in the list of page controls. */
  datatype Command = ClickPlayButton | ClickTrack(index: nat) | ClickPage(index: nat)

  /** The player's state: `_current_track_number`, `len(track_list)`,
      `_current_track_record` and `database`. */
  datatype Leader = Leader(
    trackNumber: int,
    trackCount: nat,
    record: Option<TrackRec>,
    database: seq<TrackRec>)

  /** The state after an operation and the clicks it issued, in order. */
  datatype Step = Step(leader: Leader, commands: seq<Command>)

  /** The outcome of one maintenance tick: the new state, and the rows
      `save_db` writes when the tick appended. */
  datatype TickOutcome = TickOutcome(leader: Leader, written: Option<seq<Row>>)

  /** A `play(track)` argument that selects a track of the current list. */
  predicate Selectable(s: Leader, track: TrackArg) {
    track.IntTrack? && 1 <= track.n <= s.trackCount
  }

  // ---------------------------------------------------------------------
  // Track list

  /** `tracks()`: the track list becomes the visible items of the view. */
  function Refresh(s: Leader, v: View): (r: Leader)
    ensures r.trackCount == |Visible(v.left, v.width, v.items)| && r.trackCount <= |v.items|
    ensures r.trackNumber == s.trackNumber && r.record == s.record && r.database == s.database
  {
    s.(trackCount := VisibleCount(v))
  }

  /** `more_tracks(page)`: clicks the page control `FindPage` picks and
      refreshes the track list; without such a control nothing happens. */
  function MoreTracks(s: Leader, page: PageArg, labels: seq<string>, v: View): (r: Step)
    ensures |r.commands| <= 1
    ensures FindPage(labels, page).None? ==> r.commands == [] && r.leader == s
    ensures FindPage(labels, page).Some? ==> && r.commands == [ClickPage(FindPage(labels, page).value)]
                                             && r.leader == Refresh(s, v)
  {
    match FindPage(labels, page)
    case None => Step(s, [])
    case Some(i) => Step(Refresh(s, v), [ClickPage(i)])
  }

  /** `more_tracks` is a no-op exactly when no label selects the page, and
      otherwise clicks the first label that does, refreshing the list. */
  lemma MoreTracksClicksFirstMatch(s: Leader, page: PageArg, labels: seq<string>, v: View)
    ensures var r := MoreTracks(s, page, labels, v);
            && (r.commands == [] <==> forall j :: 0 <= j < |labels| ==> !Selects(labels[j], page))
            && (r.commands == [] ==> r.leader == s)
            && (r.commands != [] ==> && r.commands[0].ClickPage?
                                     && r.commands[0].index < |labels|
                                     && Selects(labels[r.commands[0].index], page)
                                     && (forall j :: 0 <= j < r.commands[0].index ==> !Selects(labels[j], page))
                                     && r.leader.trackCount == VisibleCount(v))
  {
  }

  // ---------------------------------------------------------------------
  // Playback

  /** `play(track)`. Without a track it clicks the play button (a toggle);
      with an int in `1..len(track_list)` it selects and clicks that track;
      any other argument selects nothing. Afterwards the record is replaced
      by a fresh capture only if the button then reports playback. */
  function Play(s: Leader, track: TrackArg, buttonClass: string, capture: Capture): (r: Step)
    ensures r.leader.trackCount == s.trackCount && r.leader.database == s.database
    ensures Selectable(s, track) ==> && r.leader.trackNumber == track.n
                                     && r.commands == [ClickTrack(track.n - 1)]
    ensures !Selectable(s, track) ==> r.leader.trackNumber == s.trackNumber
    ensures track.NoTrack? ==> r.commands == [ClickPlayButton]
    ensures !track.NoTrack? && !Selectable(s, track) ==> r.commands == []
    ensures IsPlaying(buttonClass) ==> r.leader.record == CurrentlyPlaying(capture)
    ensures !IsPlaying(buttonClass) ==> r.leader.record == s.record
  {
    var selected :=
      match track
      case NoTrack => Step(s, [ClickPlayButton])
      case IntTrack(n) =>
        if 1 <= n <= s.trackCount then Step(s.(trackNumber := n), [ClickTrack(n - 1)])
        else Step(s, [])
      case OtherArg => Step(s, []);
    if IsPlaying(buttonClass) then
      Step(selected.leader.(record := CurrentlyPlaying(capture)), selected.commands)
    else
      selected
  }

  /** `pause()`: the same toggle as `play()` without a track. It keeps the
      record whenever playback is not reported afterwards; when the toggle
      leaves playback on, the record is replaced by a fresh capture, which
      may be absent. */
  function Pause(s: Leader, buttonClass: string, capture: Capture): (r: Step)
    ensures r.commands == [ClickPlayButton]
    ensures r.leader.trackNumber == s.trackNumber && r.leader.trackCount == s.trackCount
    ensures r.leader.database == s.database
    ensures !IsPlaying(buttonClass) ==> r.leader.record == s.record
    ensures IsPlaying(buttonClass) ==> r.leader.record == CurrentlyPlaying(capture)
  {
    Play(s, NoTrack, buttonClass, capture)
  }

  /** `play_next()`: the following track of the list, or else the next
      catalogue page and then its first track. */
  function PlayNext(s: Leader, labels: seq<string>, v: View, buttonClass: string, capture: Capture): (r: Step)
    ensures r.leader.database == s.database
    ensures 1 <= s.trackNumber < s.trackCount ==> && r.leader.trackNumber == s.trackNumber + 1
                                                  && r.leader.trackCount == s.trackCount
                                                  && r.commands == [ClickTrack(s.trackNumber)]
    ensures s.trackNumber >= 1 ==> r.leader.trackNumber >= 1
    ensures IsPlaying(buttonClass) ==> r.leader.record == CurrentlyPlaying(capture)
    ensures !IsPlaying(buttonClass) ==> r.leader.record == s.record
  {
    if s.trackNumber < s.trackCount then
      Play(s, IntTrack(s.trackNumber + 1), buttonClass, capture)
    else
      var more := MoreTracks(s, Named("next"), labels, v);
      var played := Play(more.leader, IntTrack(1), buttonClass, capture);
      Step(played.leader, more.commands + played.commands)
  }

  /** Past the last track, `play_next()` is one `more_tracks('next')`
      followed by `play(1)` on whatever list is then current: the refreshed
      one when a "next" control was clicked, the old one otherwise. */
  lemma PlayNextChainsPagination(s: Leader, labels: seq<string>, v: View, buttonClass: string, capture: Capture)
    requires s.trackNumber >= s.trackCount
    ensures var r := PlayNext(s, labels, v, buttonClass, capture);
            var more := MoreTracks(s, Named("next"), labels, v);
            var count := more.leader.trackCount;
            && r.commands == more.commands + (if count >= 1 then [ClickTrack(0)] else [])
            && r.leader.trackCount == count
            && r.leader.trackNumber == (if count >= 1 then 1 else s.trackNumber)
  {
    var more := MoreTracks(s, Named("next"), labels, v);
    assert more.leader.trackNumber == s.trackNumber;
    var played := Play(more.leader, IntTrack(1), buttonClass, capture);
    assert PlayNext(s, labels, v, buttonClass, capture) == Step(played.leader, more.commands + played.commands);
  }

  /** Pausing after a track was seen playing keeps its record, even though
      playback is no longer active: the record means "last seen playing". */
  lemma PauseKeepsLastRecord(s: Leader, track: TrackArg, playingClass: string, capture: Capture,
                             pausedClass: string, later: Capture, rec: TrackRec)
    requires IsPlaying(playingClass) && CurrentlyPlaying(capture) == Some(rec)
    requires !IsPlaying(pausedClass)
    ensures var played := Play(s, track, playingClass, capture).leader;
            Pause(played, pausedClass, later).leader.record == Some(rec)
  {
  }

  // ---------------------------------------------------------------------
  // History maintenance

  /** The last history entry, if any. */
  function Last(db: seq<TrackRec>): Option<TrackRec> {
    if |db| == 0 then None else Some(db[|db| - 1])
  }

  /** `_update_db()`, one tick. The record is appended when it is present,
      differs from the last entry (or the history is empty), and the play
      button reports playback; the whole history is then written out. A
      button read that raises is swallowed and changes nothing. Writing is
      output only: the in-memory append stands whether or not it succeeds. */
  function Tick(s: Leader, buttonClass: Option<string>): (t: TickOutcome)
    ensures t.leader.trackNumber == s.trackNumber && t.leader.trackCount == s.trackCount
    ensures t.leader.record == s.record
    ensures s.database <= t.leader.database && |t.leader.database| <= |s.database| + 1
    ensures |t.leader.database| == |s.database| + 1
            <==> && s.record.Some? && Last(s.database) != s.record
                 && buttonClass.Some? && IsPlaying(buttonClass.value)
    ensures |t.leader.database| == |s.database| + 1 ==> Last(t.leader.database) == s.record
    ensures t.written.Some? <==> |t.leader.database| == |s.database| + 1
    ensures t.written.Some? ==> t.written.value == SaveRows(t.leader.database)
  {
    var check := s.record.Some? && Last(s.database) != s.record
                 && match buttonClass
                    case None => false
                    case Some(cls) => IsPlaying(cls);
    if check then
      var db := s.database + [s.record.value];
      TickOutcome(s.(database := db), Some(SaveRows(db)))
    else
      TickOutcome(s, None)
  }

  /** What a tick writes reloads as the history it leaves in memory. */
  lemma TickWritesItsHistory(s: Leader, buttonClass: Option<string>)
    ensures var t := Tick(s, buttonClass);
            t.written.Some? ==> LoadRows(t.written.value) == Success(t.leader.database)
  {
    SaveLoadRoundTrip(Tick(s, buttonClass).leader.database);
  }

  /** A tick never puts two equal entries next to each other. */
  lemma TickKeepsNoAdjacentDup(s: Leader, buttonClass: Option<string>)
    requires NoAdjacentDup(s.database)
    ensures NoAdjacentDup(Tick(s, buttonClass).leader.database)
  {
    var db := Tick(s, buttonClass).leader.database;
    if |db| == |s.database| + 1 {
      forall i, j | 0 <= i < |db| && 0 <= j < |db| && j == i + 1
        ensures db[i] != db[j]
      {
        if j < |s.database| {
          assert db[i] == s.database[i] && db[j] == s.database[j];
        } else {
          assert Last(s.database) == Some(db[i]);
        }
      }
    }
  }

  /** A second tick on the same observations appends nothing more. */
  lemma TickIdempotent(s: Leader, buttonClass: Option<string>)
    ensures var once := Tick(s, buttonClass);
            var twice := Tick(once.leader, buttonClass);
            twice.leader == once.leader && twice.written == None
  {
  }

  // ---------------------------------------------------------------------
  // Sessions

  /** One thing that can happen to the player: a maintenance tick or a
      call from the foreground, each with what the browser shows at that
      moment. A session is any sequence of them; a tick is never split by
      a foreground call. */
  datatype Event =
    | TickEvent(probe: Option<string>)
    | PlayEvent(track: TrackArg, buttonClass: string, capture: Capture)
    | PauseEvent(buttonClass: string, capture: Capture)
    | PlayNextEvent(labels: seq<string>, view: View, buttonClass: string, capture: Capture)
    | MoreTracksEvent(page: PageArg, labels: seq<string>, view: View)
    | RefreshEvent(view: View)

  function Apply(s: Leader, e: Event): Leader {
    match e
    case TickEvent(cls) => Tick(s, cls).leader
    case PlayEvent(track, cls, capture) => Play(s, track, cls, capture).leader
    case PauseEvent(cls, capture) => Pause(s, cls, capture).leader
    case PlayNextEvent(labels, v, cls, capture) => PlayNext(s, labels, v, cls, capture).leader
    case MoreTracksEvent(page, labels, v) => MoreTracks(s, page, labels, v).leader
    case RefreshEvent(v) => Refresh(s, v)
  }

  function Run(s: Leader, events: seq<Event>): Leader
    decreases |events|
  {
    if |events| == 0 then s else Run(Apply(s, events[0]), events[1..])
  }

  function TickCount(events: seq<Event>): nat
    decreases |events|
  {
    if |events| == 0 then 0
    else (if events[0].TickEvent? then 1 else 0) + TickCount(events[1..])
  }

  /** The state invariant: the track number stays at least 1 and the
      history holds no two equal neighbours. */
  predicate Valid(s: Leader) {
    s.trackNumber >= 1 && NoAdjacentDup(s.database)
  }

  lemma ApplyKeepsValid(s: Leader, e: Event)
    requires Valid(s)
    ensures Valid(Apply(s, e))
    ensures s.database <= Apply(s, e).database
    ensures |Apply(s, e).database| <= |s.database| + (if e.TickEvent? then 1 else 0)
  {
    match e
    case TickEvent(cls) => TickKeepsNoAdjacentDup(s, cls);
    case _ =>
  }

  /** Over any sequence of whole ticks and commands the invariant holds, the
      history only grows at its end, and it grows by at most one entry per
      tick. */
  lemma {:induction false} RunKeepsValid(s: Leader, events: seq<Event>)
    requires Valid(s)
    ensures Valid(Run(s, events))
    ensures s.database <= Run(s, events).database
    ensures |Run(s, events).database| <= |s.database| + TickCount(events)
    decreases |events|
  {
    if |events| > 0 {
      ApplyKeepsValid(s, events[0]);
      RunKeepsValid(Apply(s, events[0]), events[1..]);
    }
  }

  // ---------------------------------------------------------------------
  // Construction

  /** The constructor as written: a history file that does not load is an
      error, but a history that does load is then dropped, because the
      database is reset to empty after the track list is read. The track
      number starts at 1 and the track list is the visible part of the
      view. `file` is absent when no file exists at the path. */
  function Construct(file: Option<seq<Row>>, v: View): (r: Result<Leader, LoadError>)
    ensures r.Failure? <==> file.Some? && LoadRows(file.value).Failure?
    ensures r.Failure? ==> r.error == LoadRows(file.value).error
    ensures r.Success? ==> && r.value.trackNumber == 1 && r.value.record == None
                           && r.value.trackCount == VisibleCount(v)
                           && r.value.database == []
  {
    var loaded := match file
                  case None => Success([])
                  case Some(rows) => LoadRows(rows);
    match loaded
    case Failure(e) => Failure(e)
    case Success(_) => Success(Leader(1, VisibleCount(v), None, []))
  }

  /** A non-empty history saved by a previous run is read successfully and
      then lost; the first append of the new run writes a file holding only
      the new entry. */
  lemma ConstructDiscardsSavedHistory(db: seq<TrackRec>, v: View, rec: TrackRec, cls: string)
    requires |db| > 0 && IsPlaying(cls)
    ensures Construct(Some(SaveRows(db)), v).Success?
    ensures var s := Construct(Some(SaveRows(db)), v).value;
            && s.database != db
            && Tick(s.(record := Some(rec)), Some(cls)).written == Some(SaveRows([rec]))
  {
    SaveLoadRoundTrip(db);
    var s := Construct(Some(SaveRows(db)), v).value;
    assert s.database + [rec] == [rec];
  }

  /** The constructor with the loaded history kept: the evident intent of
      loading it at all. */
  function ConstructResuming(file: Option<seq<Row>>, v: View): (r: Result<Leader, LoadError>)
    ensures r.Failure? <==> file.Some? && LoadRows(file.value).Failure?
    ensures r.Failure? ==> r.error == LoadRows(file.value).error
    ensures r.Success? ==> && r.value.trackNumber == 1 && r.value.record == None
                           && r.value.trackCount == VisibleCount(v)
    ensures r.Success? && file.None? ==> r.value.database == []
    ensures r.Success? && file.Some? ==> Success(r.value.database) == LoadRows(file.value)
  {
    var loaded := match file
                  case None => Success([])
                  case Some(rows) => LoadRows(rows);
    match loaded
    case Failure(e) => Failure(e)
    case Success(db) => Success(Leader(1, VisibleCount(v), None, db))
  }

  /** A restart resumes exactly the history the previous run saved. */
  lemma ResumeRestoresSavedHistory(db: seq<TrackRec>, v: View)
    ensures ConstructResuming(Some(SaveRows(db)), v) == Success(Leader(1, VisibleCount(v), None, db))
  {
    SaveLoadRoundTrip(db);
  }

  /** A session started from a saved, duplicate-free history keeps that
      history as the prefix of everything it records, and stays valid. */
  lemma ResumedSessionKeepsHistory(db: seq<TrackRec>, v: View, events: seq<Event>)
    requires NoAdjacentDup(db)
    ensures var s := ConstructResuming(Some(SaveRows(db)), v);
            && s.Success?
            && Valid(Run(s.value, events))
            && db <= Run(s.value, events).database
  {
    ResumeRestoresSavedHistory(db, v);
    RunKeepsValid(Leader(1, VisibleCount(v), None, db), events);
  }

  // ---------------------------------------------------------------------
  // A worked session

  /** Starting from an empty history, `play(2)` on a three-track list while
      playing captures a record; one tick appends it, a second tick with
      nothing new appends nothing, and after a capture that differs only in
      its timestamp the next tick appends that one too. */
  lemma DedupScenario(v: View, cls: string, first: Capture, second: Capture, r1: TrackRec, r2: TrackRec)
    requires VisibleCount(v) == 3 && IsPlaying(cls)
    requires CurrentlyPlaying(first) == Some(r1) && CurrentlyPlaying(second) == Some(r2)
    requires r1 == TrackRec("T", "A", "u1", "Alb", "u2", "t1")
    requires r2 == r1.(timestamp := "t2")
    ensures var s0 := Construct(None, v).value;
            var s1 := Play(s0, IntTrack(2), cls, first).leader;
            var t1 := Tick(s1, Some(cls));
            var t2 := Tick(t1.leader, Some(cls));
            var s3 := Play(t2.leader, IntTrack(2), cls, second).leader;
            var t3 := Tick(s3, Some(cls));
            && s1.trackNumber == 2
            && t1.leader.database == [r1]
            && t2.leader.database == [r1] && t2.written == None
            && t3.leader.database == [r1, r2]
  {
    var s0 := Construct(None, v).value;
    var s1 := Play(s0, IntTrack(2), cls, first).leader;
    assert s1.record == Some(r1);
    var t1 := Tick(s1, Some(cls));
    assert t1.leader.database == [] + [r1];
    var t2 := Tick(t1.leader, Some(cls));
    var s3 := Play(t2.leader, IntTrack(2), cls, second).leader;
    assert s3.record == Some(r2) && r1 != r2;
    var t3 := Tick(s3, Some(cls));
    assert t3.leader.database == [r1] + [r2];
  }
}
