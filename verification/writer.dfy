/** `BandcampMetadataWriter.write_metadata_to_file`: which tags of an audio
    file are set from the album page. The format table, the tag handler and
    its `save` are inputs: the handler is reduced to the attributes it has,
    and saving to whether it raised. */
module Writer {
  import opened Wrappers
  import opened Paths
  import opened Years
  import opened Extractor
  import opened Matcher

  /** The attributes the tag handler of the file's format exposes. */
  datatype Handler = Handler(artist: bool, album: bool, year: bool, title: bool, trackNumber: bool)

  /** The values assigned to the handler before saving; `None` for a tag
      that is left as it was. */
  datatype Tags = Tags(
    artist: Option<string>,
    album: Option<string>,
    year: Option<string>,
    title: Option<string>,
    trackNumber: Option<nat>)

  /** Why `write_metadata_to_file` returns `False`. */
  datatype WriteError =
    | UnsupportedFormat
    | NoMetadata
    | NoHandler
    | SaveFailed

  /** A string value is assigned only when it is truthy. */
  function IfText(present: bool, v: string): (r: Option<string>)
    ensures r.Some? <==> present && v != ""
    ensures r.Some? ==> r.value == v
  {
    if present && v != "" then Some(v) else None
  }

  /** The tags set for the album and the matched track. */
  function AssignedTags(h: Handler, meta: AlbumMetadata, track: Option<Track>): (r: Tags)
    ensures r.artist == IfText(h.artist, meta.artist)
    ensures r.album == IfText(h.album, meta.album)
    ensures r.year.Some? <==> h.year && meta.year.Some? && meta.year.value != ""
    ensures r.year.Some? ==> r.year == meta.year
    ensures r.title.Some? <==> track.Some? && h.title && track.value.title != ""
    ensures r.title.Some? ==> r.title.value == track.value.title
    ensures r.trackNumber.Some? <==> track.Some? && h.trackNumber && track.value.number != 0
    ensures r.trackNumber.Some? ==> r.trackNumber.value == track.value.number
  {
    var year := if h.year && meta.year.Some? && meta.year.value != "" then meta.year else None;
    match track
    case None => Tags(IfText(h.artist, meta.artist), IfText(h.album, meta.album), year, None, None)
    case Some(t) =>
      var number := if h.trackNumber && t.number != 0 then Some(t.number) else None;
      Tags(IfText(h.artist, meta.artist), IfText(h.album, meta.album), year, IfText(h.title, t.title), number)
  }

  /** `write_metadata_to_file(path, url)`: `supported` is the set of
      suffixes with a metadata class, `page` the fetched album page (`None`
      when the request failed), `handler` what loading the file's tags
      gave, and `saved` whether saving succeeded. On success, the tags
      written. */
  function WriteMetadata(path: string, supported: set<string>, page: Option<Page>, url: string,
                         handler: Option<Handler>, saved: bool): (r: Result<Tags, WriteError>)
    ensures r == Failure(UnsupportedFormat) <==> Suffix(Name(path)) !in supported
    ensures r == Failure(NoMetadata) <==> Suffix(Name(path)) in supported && ExtractAlbumMetadata(page, url).None?
    ensures r.Success? <==> Suffix(Name(path)) in supported && ExtractAlbumMetadata(page, url).Some?
                            && handler.Some? && saved
    ensures r.Success? ==>
              var meta := ExtractAlbumMetadata(page, url).value;
              var track := FindMatchingTrack(Stem(Name(path)), meta.tracks);
              r.value == AssignedTags(handler.value, meta, track)
  {
    if Suffix(Name(path)) !in supported then Failure(UnsupportedFormat)
    else
      match ExtractAlbumMetadata(page, url)
      case None => Failure(NoMetadata)
      case Some(meta) =>
        match handler
        case None => Failure(NoHandler)
        case Some(h) =>
          var track := FindMatchingTrack(Stem(Name(path)), meta.tracks);
          if saved then Success(AssignedTags(h, meta, track)) else Failure(SaveFailed)
  }

  /** What a successful write sets: the artist and album whenever the
      handler has the attribute (extraction never yields them empty), a
      year only if one in range was found, and the title and number only
      from the track the file matched, the number only when it is not 0. */
  lemma WrittenTags(path: string, supported: set<string>, page: Option<Page>, url: string,
                    handler: Option<Handler>, saved: bool)
    requires WriteMetadata(path, supported, page, url, handler, saved).Success?
    ensures var tags := WriteMetadata(path, supported, page, url, handler, saved).value;
            var meta := ExtractAlbumMetadata(page, url).value;
            var track := FindMatchingTrack(Stem(Name(path)), meta.tracks);
            && (tags.artist.Some? <==> handler.value.artist)
            && (tags.artist.Some? ==> tags.artist.value == meta.artist && meta.artist == ArtistName(page.value).value)
            && (tags.album.Some? <==> handler.value.album)
            && (tags.album.Some? ==> tags.album.value == AlbumTitle(page.value).value)
            && (tags.year.Some? <==> handler.value.year && ReleaseYear(page.value.years).Some?)
            && (tags.year.Some? ==> IsYearText(tags.year.value) && tags.year == ReleaseYear(page.value.years))
            && (track.None? ==> tags.title.None? && tags.trackNumber.None?)
            && (tags.title.Some? ==> tags.title.value != "" && exists t :: t in meta.tracks && t.title == tags.title.value)
            && (tags.trackNumber.Some? ==> tags.trackNumber.value > 0
                                           && exists t :: t in meta.tracks && t.number == tags.trackNumber.value)
  {
    var meta := ExtractAlbumMetadata(page, url).value;
    var track := FindMatchingTrack(Stem(Name(path)), meta.tracks);
    if meta.year.Some? {
      assert |meta.year.value| == 4;
    }
    if track.Some? {
      assert track.value in meta.tracks;
    }
  }
}
