/** The history record `TrackRec` and the row shape of the history file:
    a header row of the six field names, then one row per record. Rows are
    sequences of fields; the delimited-text quoting around them is not part
    of this model. */
module TrackRecords {
  import opened Maybe

  /** One played track; equality is structural over all six fields. */
  datatype TrackRec = TrackRec(
    title: string,
    artist: string,
    artistUrl: string,
    album: string,
    albumUrl: string,
    timestamp: string)   // when it was captured

  /** One row of the history file: its fields, already unquoted. */
  type Row = seq<string>

  /** `TrackRec._fields`, the header row of the file. */
  const Header: Row := ["title", "artist", "artist_url", "album", "album_url", "timestamp"]

  /** Why reading a history file fails. */
  datatype LoadError =
    | MissingHeader              // the file has no row at all
    | WrongFieldCount(width: nat)  // a row does not have six fields

  /** The field of a record that a header column names ("" for a name that
      is not a column). */
  function FieldNamed(r: TrackRec, name: string): string {
    if name == "title" then r.title
    else if name == "artist" then r.artist
    else if name == "artist_url" then r.artistUrl
    else if name == "album" then r.album
    else if name == "album_url" then r.albumUrl
    else if name == "timestamp" then r.timestamp
    else ""
  }

  /** `list(entry)`: the fields in declaration order. */
  function ToRow(r: TrackRec): (row: Row)
    ensures |row| == |Header|
  {
    [r.title, r.artist, r.artistUrl, r.album, r.albumUrl, r.timestamp]
  }

  /** `TrackRec._make(row)`: positional construction, refused unless the
      row has exactly six fields. */
  function FromRow(row: Row): (r: Result<TrackRec, LoadError>)
    ensures r.Success? <==> |row| == |Header|
    ensures r.Success? ==> ToRow(r.value) == row
    ensures r.Failure? ==> r.error == WrongFieldCount(|row|)
  {
    if |row| == 6 then Success(TrackRec(row[0], row[1], row[2], row[3], row[4], row[5]))
    else Failure(WrongFieldCount(|row|))
  }

  /** The rows `save_db` writes: the header, then every entry in order. */
  function SaveRows(db: seq<TrackRec>): (rows: seq<Row>)
    ensures |rows| == |db| + 1
    ensures rows[0] == Header
    ensures forall i :: 0 <= i < |db| ==> rows[i + 1] == ToRow(db[i])
  {
    [Header] + seq(|db|, i requires 0 <= i < |db| => ToRow(db[i]))
  }

  /** The list comprehension over the remaining rows: every row becomes a
      record, and the first malformed row stops the load. */
  function LoadRecords(rows: seq<Row>): (r: Result<seq<TrackRec>, LoadError>)
    ensures r.Success? <==> forall i :: 0 <= i < |rows| ==> |rows[i]| == |Header|
    ensures r.Success? ==> |r.value| == |rows|
                           && forall i :: 0 <= i < |rows| ==> ToRow(r.value[i]) == rows[i]
    ensures r.Failure? ==> exists i :: 0 <= i < |rows| && r.error == WrongFieldCount(|rows[i]|)
                                                    && |rows[i]| != |Header|
                                                    && forall j :: 0 <= j < i ==> |rows[j]| == |Header|
  {
    if |rows| == 0 then Success([])
    else
      match FromRow(rows[0])
      case Failure(e) => Failure(e)
      case Success(head) =>
        match LoadRecords(rows[1..])
        case Failure(e) => Failure(e)
        case Success(tail) => Success([head] + tail)
  }

  /** The load block of the constructor: skip the first row, whatever it
      holds, then load the rest. An empty file has no row to skip. */
  function LoadRows(rows: seq<Row>): (r: Result<seq<TrackRec>, LoadError>)
    ensures |rows| == 0 ==> r == Failure(MissingHeader)
    ensures |rows| > 0 ==> r == LoadRecords(rows[1..])
  {
    if |rows| == 0 then Failure(MissingHeader) else LoadRecords(rows[1..])
  }

  /** Every field of a written row sits under the header column naming it. */
  lemma ToRowFollowsHeader(r: TrackRec)
    ensures forall i :: 0 <= i < |Header| ==> ToRow(r)[i] == FieldNamed(r, Header[i])
  {
    var row := ToRow(r);
    assert row[0] == FieldNamed(r, Header[0]);
    assert row[1] == FieldNamed(r, Header[1]);
    assert row[2] == FieldNamed(r, Header[2]);
    assert row[3] == FieldNamed(r, Header[3]);
    assert row[4] == FieldNamed(r, Header[4]);
    assert row[5] == FieldNamed(r, Header[5]);
  }

  /** Two records with the same row are the same record. */
  lemma ToRowInjective(a: TrackRec, b: TrackRec)
    requires ToRow(a) == ToRow(b)
    ensures a == b
  {
    assert ToRow(a)[0] == ToRow(b)[0] && ToRow(a)[1] == ToRow(b)[1] && ToRow(a)[2] == ToRow(b)[2];
    assert ToRow(a)[3] == ToRow(b)[3] && ToRow(a)[4] == ToRow(b)[4] && ToRow(a)[5] == ToRow(b)[5];
  }

  /** Saving a history and loading it again gives back the same history,
      in the same order. */
  lemma SaveLoadRoundTrip(db: seq<TrackRec>)
    ensures LoadRows(SaveRows(db)) == Success(db)
  {
    var rows := SaveRows(db);
    var body := rows[1..];
    assert forall i :: 0 <= i < |body| ==> body[i] == ToRow(db[i]);
    var r := LoadRecords(body);
    assert r.Success?;
    forall i | 0 <= i < |db|
      ensures r.value[i] == db[i]
    {
      ToRowInjective(r.value[i], db[i]);
    }
    assert r.value == db;
    assert LoadRows(rows) == r;
  }

  /** Loading a file that starts with the header and saving the result
      writes the very same rows back. */
  lemma LoadSaveRoundTrip(rows: seq<Row>)
    requires |rows| > 0 && rows[0] == Header
    requires LoadRows(rows).Success?
    ensures SaveRows(LoadRows(rows).value) == rows
  {
    var db := LoadRows(rows).value;
    var saved := SaveRows(db);
    assert forall i :: 1 <= i < |rows| ==> saved[i] == rows[i];
  }

  /** The history-log invariant: no two consecutive entries are equal.
      Equal entries further apart are allowed. */
  predicate NoAdjacentDup(db: seq<TrackRec>) {
    forall i, j :: 0 <= i < |db| && 0 <= j < |db| && j == i + 1 ==> db[i] != db[j]
  }
}
