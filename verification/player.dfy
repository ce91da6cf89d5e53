/** What the player panel reports: whether a track is playing, and the
    record of the track that is. Every page read is an input; a read that
    raises is an absent input. */
module Player {
  import opened Maybe
  import opened Text
  import opened TrackRecords

  /** `is_playing()`: the play button's class attribute contains the text
      "playing" somewhere. */
  function IsPlaying(buttonClass: string): (b: bool)
    ensures b <==> exists k :: OccursAt(buttonClass, "playing", k)
  {
    Find(buttonClass, "playing") > -1
  }

  /** The now-playing panel as read from the page: the title, the album
      link's text and href, the artist link's text and href. An href is
      absent when the link has no such attribute. */
  datatype Panel = Panel(
    title: string,
    albumText: string,
    albumHref: Option<string>,
    artistText: string,
    artistHref: Option<string>)

  /** Everything `currently_playing()` reads: the play button's class (absent
      when the lookup raises or the attribute is missing), the panel (absent
      when one of its lookups raises) and the wall-clock text of `ctime()`. */
  datatype Capture = Capture(buttonClass: Option<string>, panel: Option<Panel>, now: string)

  /** `currently_playing()`: a record exactly when playback is active and
      every field could be read; any failure on the way gives no record. */
  function CurrentlyPlaying(c: Capture): (r: Option<TrackRec>)
    ensures r.Some? <==> && c.buttonClass.Some? && IsPlaying(c.buttonClass.value)
                         && c.panel.Some?
                         && c.panel.value.albumHref.Some? && c.panel.value.artistHref.Some?
    ensures r.Some? ==> && r.value.title == c.panel.value.title
                        && r.value.artist == c.panel.value.artistText
                        && r.value.album == c.panel.value.albumText
                        && r.value.timestamp == c.now
    // Both URLs are the hrefs cut at their first '?' (see `StripQuery`).
    ensures r.Some? ==> && r.value.albumUrl == StripQuery(c.panel.value.albumHref.value)
                        && r.value.artistUrl == StripQuery(c.panel.value.artistHref.value)
  {
    match c.buttonClass
    case None => None
    case Some(cls) =>
      if !IsPlaying(cls) then None
      else
        match c.panel
        case None => None
        case Some(p) =>
          match (p.albumHref, p.artistHref)
          case (Some(albumHref), Some(artistHref)) =>
            Some(TrackRec(p.title, p.artistText, StripQuery(artistHref),
                          p.albumText, StripQuery(albumHref), c.now))
          case _ => None
  }
}
