/** `BandcampMetadataExtractor`: album title, artist, release year and
    track list taken from an album page. The HTML parser is an input: a
    `Page` holds, for each selector the extractor tries, the text of the
    first matching element, or `None` when there is no such element. */
module Extractor {
  import opened Wrappers
  import opened Strings
  import opened Years

  /** The first `<h3>` of the page: the text of its first `<a>`, if it has
      one, and its own text. */
  datatype Heading = Heading(linkText: Option<string>, text: string)

  /** A `tr.track_row_view`: the texts of its `div.track_number`,
      `span.track-title` and `span.time`, each if present. */
  datatype Row = Row(numberText: Option<string>, title: Option<string>, duration: Option<string>)

  /** A track kept from the track table. */
  datatype Track = Track(number: nat, title: string, duration: Option<string>)

  /** What the extractor reads from an album page. */
  datatype Page = Page(
    h2TrackTitle: Option<string>,
    h1TrackTitle: Option<string>,
    firstH2: Option<string>,
    firstH3: Option<Heading>,
    byArtistSpan: Option<string>,
    artistLink: Option<string>,
    years: YearSources,
    trackTable: Option<seq<Row>>)

  /** The dictionary `extract_album_metadata` returns. */
  datatype AlbumMetadata = AlbumMetadata(
    artist: string,
    album: string,
    year: Option<string>,
    tracks: seq<Track>,
    url: string)

  /** The stripped text of a found element, unless it is blank. */
  function Nonblank(text: Option<string>): (r: Option<string>)
    ensures r.Some? <==> text.Some? && StripSpace(text.value) != ""
    ensures r.Some? ==> r.value == StripSpace(text.value)
  {
    match text
    case None => None
    case Some(t) => if StripSpace(t) == "" then None else Some(StripSpace(t))
  }

  /** `_extract_album_title`: the first selector whose element exists and
      has non-blank text, among `h2.trackTitle`, `h1.trackTitle` and the
      first `h2`; its stripped text. */
  function AlbumTitle(p: Page): (r: Option<string>)
    ensures r.Some? ==> r.value != ""
    ensures r.None? <==> Nonblank(p.h2TrackTitle).None? && Nonblank(p.h1TrackTitle).None? && Nonblank(p.firstH2).None?
    ensures Nonblank(p.h2TrackTitle).Some? ==> r == Nonblank(p.h2TrackTitle)
    ensures Nonblank(p.h2TrackTitle).None? && Nonblank(p.h1TrackTitle).Some? ==> r == Nonblank(p.h1TrackTitle)
    ensures Nonblank(p.h2TrackTitle).None? && Nonblank(p.h1TrackTitle).None? ==> r == Nonblank(p.firstH2)
  {
    var first, second, third := Nonblank(p.h2TrackTitle), Nonblank(p.h1TrackTitle), Nonblank(p.firstH2);
    if first.Some? then first else if second.Some? then second else third
  }

  /** `re.sub(r"^by\s+", "", s)`: a leading `by` followed by white space
      is removed together with that white space. */
  function DropBy(s: string): (r: string)
    ensures |r| <= |s| && r == s[|s| - |r|..]
    ensures r != s <==> |s| >= 3 && s[..2] == "by" && IsSpace(s[2])
    ensures r != s ==> forall i :: 2 <= i < |s| - |r| ==> IsSpace(s[i])
    ensures r != s ==> r == "" || !IsSpace(r[0])
    ensures r != s ==> r == TrimLeft(s[2..], Whitespace)
  {
    if |s| >= 3 && s[..2] == "by" && IsSpace(s[2]) then
      var t := s[2..];
      var r := TrimLeft(t, Whitespace);
      assert forall i :: 0 <= i < |t| - |r| ==> IsSpace(t[i]);
      assert forall i :: 2 <= i < |s| - |r| ==> s[i] == t[i - 2];
      r
    else s
  }

  /** The artist named by an `<h3>`: its link text, or else its own text
      without a leading `by `; blank text gives the empty name. */
  function HeadingArtist(h: Heading): (r: string)
    ensures h.linkText.Some? ==> r == StripSpace(h.linkText.value)
    ensures h.linkText.None? ==> r == DropBy(StripSpace(h.text))
  {
    match h.linkText
    case Some(t) => StripSpace(t)
    case None => DropBy(StripSpace(h.text))
  }

  /** `_extract_artist_name`: an `<h3>` decides alone, even when it gives
      the empty name; only a page without one falls back on
      `span[itemprop=byArtist]` and then `a.artist`. */
  function ArtistName(p: Page): (r: Option<string>)
    ensures p.firstH3.Some? ==> r == Some(HeadingArtist(p.firstH3.value))
    ensures p.firstH3.None? ==> (r.None? <==> Nonblank(p.byArtistSpan).None? && Nonblank(p.artistLink).None?)
    ensures p.firstH3.None? && r.Some? ==> r.value != ""
    ensures p.firstH3.None? && Nonblank(p.byArtistSpan).Some? ==> r == Nonblank(p.byArtistSpan)
    ensures p.firstH3.None? && Nonblank(p.byArtistSpan).None? ==> r == Nonblank(p.artistLink)
  {
    match p.firstH3
    case Some(h) => Some(HeadingArtist(h))
    case None =>
      var first, second := Nonblank(p.byArtistSpan), Nonblank(p.artistLink);
      if first.Some? then first else second
  }

  /** Removing `by ` never empties a name that was not blank: the stripped
      text ends in a character that is not white space, and that
      character survives. */
  lemma HeadingTextNamesArtist(h: Heading)
    requires h.linkText.None? && StripSpace(h.text) != ""
    ensures HeadingArtist(h) != ""
  {
    var s := StripSpace(h.text);
    var r := DropBy(s);
    assert !IsSpace(s[|s| - 1]);
  }

  /** The digits of a row's number text, once stripped. */
  function RowDigits(row: Row): (r: string)
    ensures AllDigits(r)
    ensures row.numberText.None? ==> r == ""
  {
    match row.numberText
    case None => ""
    case Some(t) => DigitsOf(StripSpace(t))
  }

  /** One row of `_extract_tracks`: kept when its number text has a digit
      and it has a title. */
  function RowTrack(row: Row): (r: Option<Track>)
    ensures r.Some? <==> RowDigits(row) != "" && row.title.Some?
    ensures r.Some? ==> r.value.number == NumberValue(RowDigits(row))
    ensures r.Some? ==> r.value.title == StripSpace(row.title.value)
    ensures r.Some? ==> r.value.duration == (if row.duration.Some? then Some(StripSpace(row.duration.value)) else None)
  {
    var digits := RowDigits(row);
    if digits != "" && row.title.Some? then
      var duration := if row.duration.Some? then Some(StripSpace(row.duration.value)) else None;
      Some(Track(NumberValue(digits), StripSpace(row.title.value), duration))
    else None
  }

  /** Each row's track, or `None` for a row that is dropped. */
  function RowResults(rows: seq<Row>): (r: seq<Option<Track>>)
    ensures |r| == |rows|
    ensures forall i :: 0 <= i < |rows| ==> r[i] == RowTrack(rows[i])
  {
    seq(|rows|, i requires 0 <= i < |rows| => RowTrack(rows[i]))
  }

  /** The tracks of the rows, in row order. */
  function TableTracks(rows: seq<Row>): (r: seq<Track>)
    ensures |r| <= |rows|
  {
    Somes(RowResults(rows))
  }

  /** The rows are filtered one by one: the tracks of two runs of rows are
      the tracks of the first followed by those of the second. */
  lemma TableTracksAppend(a: seq<Row>, b: seq<Row>)
    ensures TableTracks(a + b) == TableTracks(a) + TableTracks(b)
  {
    var ra, rb, rab := RowResults(a), RowResults(b), RowResults(a + b);
    forall i | 0 <= i < |rab|
      ensures rab[i] == (ra + rb)[i]
    {
      if i < |a| {
        assert (a + b)[i] == a[i];
      } else {
        assert (a + b)[i] == b[i - |a|];
      }
    }
    assert rab == ra + rb;
    SomesAppend(ra, rb);
  }

  /** A single row gives its track, or nothing. */
  lemma TableTracksSingle(row: Row)
    ensures RowTrack(row).Some? ==> TableTracks([row]) == [RowTrack(row).value]
    ensures RowTrack(row).None? ==> TableTracks([row]) == []
  {
    assert RowResults([row]) == [RowTrack(row)];
    assert RowResults([row])[1..] == [];
  }

  /** A track is extracted exactly when some row yields it. */
  lemma TableTracksMembers(rows: seq<Row>, t: Track)
    ensures t in TableTracks(rows) <==> exists i :: 0 <= i < |rows| && RowTrack(rows[i]) == Some(t)
  {
    SomesMembers(RowResults(rows), t);
  }

  /** `_extract_tracks`: no track table gives no tracks. */
  function ExtractTracks(table: Option<seq<Row>>): (r: seq<Track>)
    ensures table.None? ==> r == []
    ensures table.Some? ==> r == TableTracks(table.value)
  {
    match table
    case None => []
    case Some(rows) => TableTracks(rows)
  }

  /** `extract_album_metadata` on the fetched page (`None` when the
      request failed): no metadata unless both the title and the artist
      are non-empty. */
  function ExtractAlbumMetadata(page: Option<Page>, url: string): (r: Option<AlbumMetadata>)
    ensures r.Some? <==> page.Some? && AlbumTitle(page.value).Some?
                         && ArtistName(page.value).Some? && ArtistName(page.value).value != ""
    ensures r.Some? ==> r.value.artist != "" && r.value.album != "" && r.value.url == url
    ensures r.Some? ==> r.value.year.None? || IsYearText(r.value.year.value)
    ensures r.Some? ==> && r.value.album == AlbumTitle(page.value).value
                        && r.value.artist == ArtistName(page.value).value
                        && r.value.year == ReleaseYear(page.value.years)
                        && r.value.tracks == ExtractTracks(page.value.trackTable)
  {
    match page
    case None => None
    case Some(p) =>
      var album := AlbumTitle(p);
      var artist := ArtistName(p);
      if album.None? || artist.None? || artist.value == "" then None
      else Some(AlbumMetadata(artist.value, album.value, ReleaseYear(p.years), ExtractTracks(p.trackTable), url))
  }
}
