# bandcamper, modelled in Dafny

bandcamper downloads releases from Bandcamp. It does four things:

- It turns a user's identifier (a bare artist subdomain, a Bandcamp URL or a custom-domain URL) into a set of release URLs.
- For each release, it picks a download route: the free download page, an emailed download link, or the 128 kbit/s preview files.
- It moves each downloaded file to a path built from an output template.
- It writes tags (artist, album, year, title, track number) taken from the album page into the audio files.

This project models the pure decision and string logic of that pipeline. HTTP, HTML parsing, the mailbox service, the clock, zip archives, the filesystem and the tag codecs are inputs or oracles. An HTML page is a record with, for each selector the code tries, the text of the first matching element (or `None` when there is none).

Modules, one per file:

| module | file | models |
|---|---|---|
| `Wrappers` | wrappers.dfy | `Option`, `Result`, first-present and present-values helpers |
| `Strings` | strings.dfy | Python string operations: `lower`, `strip`, `split`, `replace`, `in`, `%02d`, digit filters |
| `Urls` | urls.dfy | a `urlparse`/`geturl` record and its round trip |
| `Resolver` | resolver.dfy | `Bandcamper.add_url`, the subdomain and host grammars, `_add_urls_from_artist` |
| `Paths` | paths.dfy | `move_file`, `_sanitize_file_path`, the platform alias, `_download_cover_image` |
| `Downloads` | downloads.dfy | `download_from_url`, `_free_download`, `download_fallback_mp3` |
| `Mailbox` | mailbox.dfy | `_get_download_url_from_email` |
| `Years` | years.dfy | `BandcampMetadataExtractor._extract_release_year` |
| `Extractor` | extractor.dfy | title, artist and track extraction, and `extract_album_metadata` |
| `Matcher` | matcher.dfy | `_find_matching_track` and `_fuzzy_match` |
| `Writer` | writer.dfy | `write_metadata_to_file` |

## Model

| member | source | states |
|---|---|---|
| Resolver.SubdomainGrammar | bandcamper/bandcamper.py:37-40 | a name matches the subdomain pattern in full exactly when it has at least four characters, all letters, digits or hyphens, and neither the first nor the last is a hyphen |
| Resolver.BuiltHostAccepted | bandcamper/bandcamper.py:41-44 | every subdomain, with or without `www.`, followed by `.bandcamp.com` is accepted by the host pattern |
| Resolver.ArtistRootShape | bandcamper/bandcamper.py:108-109 | the artist page of a subdomain parses back to `https`, the lower-cased subdomain under `.bandcamp.com`, and the path `/music`; that host is a Bandcamp host and that path names the artist root |
| Resolver.LowerSubdomain | bandcamper/bandcamper.py:37-40 | lower-casing a subdomain keeps it inside the grammar |
| Resolver.ExpandArtist | bandcamper/bandcamper.py:89-105 | the release URLs are collected exactly when the page was read and has a music grid: one URL per link, duplicates merged, with relative links resolved against the https origin of the artist page; a failed request keeps its status |
| Resolver.LinkUrlParts | bandcamper/bandcamper.py:96-104 | a release link reads back as `https` on the artist page's host when it has no scheme, and otherwise keeps its own scheme and host; host and path lose surrounding slashes and spaces, the path is empty or `/` and the trimmed path, and query and fragment are dropped |
| Resolver.Canonical | bandcamper/bandcamper.py:120-124 | a schemeless identifier is read as `https://` followed by it; otherwise, with `force_https`, only the scheme is replaced by `https`, and without it the parsed URL is kept |
| Resolver.Resolve | bandcamper/bandcamper.py:107-135 | a subdomain reads its artist page: the page's release links, or no URLs and a warning (not found on 404, a request error on any other status, no releases without a grid); any other identifier is rejected exactly when neither its host nor the custom-domain address check accepts it; an accepted artist-root path reads the `/music` page of its host and fails on an error, and any other accepted URL is added alone and verbatim |
| Resolver.AddUrl | bandcamper/bandcamper.py:107-135 | the set grows by exactly what the identifier stands for, and the warning is passed on; URLs are never removed; the identifier is rejected exactly when neither its host nor the custom-domain address check accepts it |
| Resolver.SubdomainAgreesWithUrl | bandcamper/bandcamper.py:107-135 | a bare subdomain and its artist-page URL add the same releases |
| Resolver.AddUrlIdempotent | bandcamper/bandcamper.py:133 | adding the same identifier again changes nothing: the URLs form a set |
| Resolver.ReleaseUrlKept | bandcamper/bandcamper.py:126-133 | a well-formed `https` release link on a Bandcamp host is added verbatim and nothing else is |
| Resolver.ColonNotSubdomain | bandcamper/bandcamper.py:37-40 | a text with a colon (any URL with a scheme) never takes the subdomain route |
| Paths.PlatformName | bandcamper/bandcamper.py:238-239 | looked up in `PLATFORMS`, only `Darwin` is renamed, to `macOS`; every other platform name passes through |
| Paths.PlatformNameIdempotent | bandcamper/bandcamper.py:238-239 | the alias of an alias is the alias |
| Paths.SanitizeContext | bandcamper/bandcamper.py:288-291 | the copy has the same keys, numbers untouched, and every text value with each `/` written as `-`, so no text value holds a `/` |
| Paths.SanitizeSlashFree | bandcamper/bandcamper.py:288-291 | a context without `/` is left exactly as it was |
| Paths.SanitizeContextIdempotent | bandcamper/bandcamper.py:288-291 | sanitising twice is sanitising once |
| Paths.Render | bandcamper/bandcamper.py:294 | rendering fails exactly when a template field is missing from the context |
| Paths.RenderSlashes | bandcamper/bandcamper.py:286-296 | with a sanitised context, the rendered name holds exactly the `/` of the template's literal text: data never adds a directory level |
| Paths.MoveContext | bandcamper/bandcamper.py:280-284 | as `dict.update`: for an audio file every track-context value overrides the caller's and the caller's other values stay; for any other file only `filename` is written, set to the file's name, and every other value stays |
| Paths.MoveContextIdempotent | bandcamper/bandcamper.py:280-284 | repeating the update on the caller's (already updated) dict changes nothing |
| Paths.MoveFile | bandcamper/bandcamper.py:279-301 | the composition with the intended split: the caller's context afterwards is the updated one; a failed render names a key the context lacks; the move succeeds exactly when the render does, and the file keeps the name of the rendered path joined to the destination |
| Paths.MoveFileAsWritten | bandcamper/bandcamper.py:279-301 | the composition as written: the render decides success and the context as in `Paths.MoveFile`, and a joined path without an audio extension has each `/` written as `-` |
| Paths.MoveFileExtrasFlattened | bandcamper/bandcamper.py:278-296 | for an extra file rendered below a real destination, the intended composition moves it into a directory while the code as written flattens the whole path into one file name without `/` |
| Paths.MoveFileLevels | bandcamper/bandcamper.py:279-297 | the rendered name has only the template's directory boundaries, and a relative name is joined to the destination unchanged |
| Paths.SanitizeFilePathAsWritten | bandcamper/bandcamper.py:250-274 | outside the audio case every `/` of the whole path becomes `-`; in the audio case only the last line counts, and it is kept whole or loses only a leading `/`, with its file name unchanged |
| Paths.ExtraFileFlattened | bandcamper/bandcamper.py:256-274 | under the code as written, any path of a non-audio file loses all its directories, while the intended split keeps it |
| Paths.ExtraFileExample | bandcamper/bandcamper.py:256-274 | `/music/A/cover.jpg` becomes `-music-A-cover.jpg` under the code as written |
| Paths.LineBreakDropsDirectory | bandcamper/bandcamper.py:256-269 | under the code as written, everything before a line break in an audio path is dropped |
| Paths.LineBreakExample | bandcamper/bandcamper.py:256-269 | `/d/A`, a line break, then `B/t.mp3` becomes `B/t.mp3` under the code as written |
| Paths.SanitizeFilePath | bandcamper/bandcamper.py:250-274 | the intended split: a path without `/` is kept, and otherwise the file name after the last `/` is kept |
| Paths.SanitizeKeepsDirectories | bandcamper/bandcamper.py:259-271 | the intended split keeps the path, except that a lone leading `/` is dropped |
| Paths.AsWrittenAgreesOnAudio | bandcamper/bandcamper.py:256-271 | on a one-line audio path with a `/`, the code as written and the intended split agree |
| Paths.CoverAction | bandcamper/bandcamper.py:482-492 | nothing is done without an art URL or a moved file; the cover is fetched exactly when `cover.png` beside the first moved file does not exist yet; the target is named `cover.png` |
| Paths.CoverBeside | bandcamper/bandcamper.py:486-487 | the cover goes in the directory of the first moved file |
| Downloads.TrackNumberText | bandcamper/bandcamper.py:308-311 | a track without a number is named `1`; a number from 0 to 9 gets a leading zero (two characters); 10 and above are written without padding or a leading zero; a negative number is its sign and digits, unpadded, as `%02d` formats it; every non-negative name reads back as its number |
| Downloads.PreviewRequest | bandcamper/bandcamper.py:315-321 | the request exists exactly when the track has an `mp3-128` file, and fetches that file; it is saved as `<artist> - <album> - <number> <title>{ext}` and labelled `<number>.mp3`, with `<number>` the track's `%02d` name; otherwise the call fails with the missing key |
| Downloads.PreviewableMembers | bandcamper/bandcamper.py:305-306 | exactly the tracks with a non-empty `file` dict are fetched |
| Downloads.FallbackRequestsAsWritten | bandcamper/bandcamper.py:303-323 | the code as written makes one request per track with preview files, or fails on a missing `mp3-128` |
| Downloads.SecondTrackMisnamed | bandcamper/bandcamper.py:313-314 | without a title, the code as written names the second track of an album with the first track's title |
| Downloads.FirstTitleReused | bandcamper/bandcamper.py:313-314 | without a title, the code as written names every previewable track with the title of the first one |
| Downloads.FallbackRequests | bandcamper/bandcamper.py:303-323 | the intended requests: one per track with preview files, or the missing-key error |
| Downloads.FallbackRequestsMeaning | bandcamper/bandcamper.py:303-323 | the intended requests succeed exactly when every track with preview files has `mp3-128`, and then the i-th request is that of the i-th such track, named with the given title or its own |
| Downloads.FallbackRequestsAppend | bandcamper/bandcamper.py:305-322 | each track is named on its own: the requests for two runs of tracks are those of each run, in order |
| Downloads.FallbackAgreesWithTitle | bandcamper/bandcamper.py:303-323 | when a title is given, the code as written and the intended requests agree |
| Downloads.StatUrlUnchanged | bandcamper/bandcamper.py:163-165 | a descriptor whose path has no `/download/` is asked for its status at its own URL |
| Downloads.StatUrlPath | bandcamper/bandcamper.py:163-165 | a descriptor path starting with `/download/` is asked for at `/statdownload/` and the same rest |
| Downloads.Step | bandcamper/bandcamper.py:161-194 | a format not offered is skipped; a failed status request fails the call; on a reply, `ok` fetches the download URL and `err` the retry URL, both ignoring case, a missing URL is a missing key, and any other result is reported and skipped; an album is labelled `<format>.zip` |
| Downloads.StepIgnoresResultCase | bandcamper/bandcamper.py:171-174 | only the reply for the format's stat URL matters, and its result is compared without regard to case |
| Downloads.FreeDownload | bandcamper/bandcamper.py:155-195 | one step per requested format, in the order asked; the call fails exactly when some step fails, and then with the error of the first failing step |
| Downloads.FetchedBound | bandcamper/bandcamper.py:161-194 | at most one file per requested format, and none when no requested format is offered |
| Downloads.SelectStrategy | bandcamper/bandcamper.py:368-391 | the free page wins, then the email gate, then the preview files when fallback is on or `mp3-128` was asked for, and otherwise nothing is downloaded |
| Downloads.AlbumAndTitle | bandcamper/bandcamper.py:362-366 | an album is its own album and carries no title; a track carries its title and the album named on its page, or the empty album |
| Downloads.ContextYear | bandcamper/bandcamper.py:356-359 | the year is the third word of the release date, or of the publish date when the release date is missing or empty; fewer than three words is an error |
| Downloads.PlanDownload | bandcamper/bandcamper.py:325-402 | `mp3-128` is taken out of the formats given to the free download; the preview files are fetched at most once per call, exactly once when `mp3-128` was asked for, and otherwise only by the fallback route |
| Downloads.BaseContext | bandcamper/bandcamper.py:404-409 | the render context holds exactly artist, album, year and release URL |
| Mailbox.EmailEndpointOfRelease | bandcamper/bandcamper.py:207-208 | the form goes over https to `email_download` on the release URL's host |
| Mailbox.DefaultForm | bandcamper/bandcamper.py:202-220 | the form carries the item, its type and the address with encoding `none`, country `US` and postcode `0` |
| Mailbox.MaxChecks | bandcamper/bandcamper.py:226-232 | a poll with timeout `t` checks the inbox at most `t + 1` times |
| Mailbox.FirstDelivery | bandcamper/bandcamper.py:226-233 | the first check with a message, and every earlier check empty |
| Mailbox.PollInbox | bandcamper/bandcamper.py:224-235 | at most `timeout + 1` checks; a timeout exactly when every one of them was empty; otherwise the poll stops at the first check with a message, succeeding exactly when that message has a link, and returns it |
| Mailbox.EmailDownloadLink | bandcamper/bandcamper.py:221-235 | a rejected submission fails before the inbox is looked at; otherwise it succeeds exactly when a message arrives within `timeout + 1` checks and the first such message has a link, and then returns that link; it times out exactly when no message arrives, and a delivery at check `k` ends the wait after `k + 1` checks |
| Years.FirstAccepted | bandcamper/metadata/bandcamp_writer.py:139-148 | the first candidate that is a year in range, and none exactly when no candidate is |
| Years.CreditsYear | bandcamper/metadata/bandcamp_writer.py:124-135 | only the first `released` date of the credits is tried, and it is taken when in range |
| Years.FourDigitsFrom | bandcamper/metadata/bandcamp_writer.py:142 | the leftmost run of four digits, and none exactly when there is none |
| Years.MetaYear | bandcamper/metadata/bandcamp_writer.py:137-148 | the first release-date meta tag whose first four digits are in range gives the year; none exactly when no tag does |
| Years.PagedataYear | bandcamper/metadata/bandcamp_writer.py:150-169 | a release date in range wins; the publish date is used only when it does not; no blob gives no year |
| Years.LdYear | bandcamper/metadata/bandcamp_writer.py:171-183 | the first `datePublished` whose first four characters are a year in range; none exactly when no entry has one |
| Years.TokensFrom | bandcamper/metadata/bandcamp_writer.py:187-192 | exactly the values of the whole four-digit words in the range |
| Years.PageTextYear | bandcamper/metadata/bandcamp_writer.py:185-202 | the latest 2000–2029 word of the page text; only when there is none, the latest 1950–1999 word |
| Years.CopyrightYear | bandcamper/metadata/bandcamp_writer.py:204-217 | the first accepted `©` year when there is one, and otherwise the first accepted `copyright` year; none exactly when no notation gives an accepted year |
| Years.ReleaseYear | bandcamper/metadata/bandcamp_writer.py:122-219 | none, or four digits between 1950 and 2030 from the first source, in priority order, that yields one |
| Years.ReleaseYearPriority | bandcamper/metadata/bandcamp_writer.py:122-219 | a year from an earlier source always wins over every later source |
| Extractor.Nonblank | bandcamper/metadata/bandcamp_writer.py:86-90 | the stripped text of a found element, and nothing when the element is missing or blank |
| Extractor.AlbumTitle | bandcamper/metadata/bandcamp_writer.py:76-91 | the first non-blank selector in the order `h2.trackTitle`, `h1.trackTitle`, first `h2`; never empty; none exactly when all three are blank |
| Extractor.DropBy | bandcamper/metadata/bandcamp_writer.py:105 | the text changes exactly when it starts with `by` and white space; then the result is the text after `by` with all of its leading white space removed, so it never starts with white space |
| Extractor.ArtistName | bandcamper/metadata/bandcamp_writer.py:93-120 | an `h3` decides alone, even with an empty name; without one, the first non-blank of the `byArtist` span and the artist link, never empty |
| Extractor.HeadingTextNamesArtist | bandcamper/metadata/bandcamp_writer.py:101-105 | removing `by ` never empties a heading text that was not blank |
| Extractor.RowTrack | bandcamper/metadata/bandcamp_writer.py:233-256 | a row is kept exactly when its number text has a digit and it has a title; the number is the value of all its digits; the title and duration are stripped |
| Extractor.TableTracksAppend | bandcamper/metadata/bandcamp_writer.py:233-256 | rows are filtered one by one, so order is kept |
| Extractor.TableTracksSingle | bandcamper/metadata/bandcamp_writer.py:254-256 | a single row gives its track or nothing |
| Extractor.TableTracksMembers | bandcamper/metadata/bandcamp_writer.py:233-256 | a track is extracted exactly when some row yields it |
| Extractor.ExtractTracks | bandcamper/metadata/bandcamp_writer.py:221-258 | no track table gives no tracks; otherwise the tracks of its rows |
| Extractor.ExtractAlbumMetadata | bandcamper/metadata/bandcamp_writer.py:30-74 | metadata exists exactly when the page was fetched and both title and artist are non-empty; then it carries them with the release year, the tracks and the URL |
| Matcher.Collapse | bandcamper/metadata/bandcamp_writer.py:360-361 | every run of `_`, `-` and white space becomes one space, so only single spaces separate the rest, and the other characters are kept in order |
| Matcher.CollapseIsSqueeze | bandcamper/metadata/bandcamp_writer.py:360-361 | collapsing equals writing every separator as a space and then keeping one space of each run of spaces |
| Matcher.Normalize | bandcamper/metadata/bandcamp_writer.py:360-361 | the normalised text is collapsed, neither starts nor ends with a space, and keeps the characters other than separators in order |
| Matcher.NormalizeIdempotent | bandcamper/metadata/bandcamp_writer.py:360-361 | normalising twice is normalising once |
| Matcher.OverlapRatio | bandcamper/metadata/bandcamp_writer.py:374-377 | `overlap / total >= 0.6` holds exactly when `5 * overlap >= 3 * total` |
| Matcher.FuzzyMatch | bandcamper/metadata/bandcamp_writer.py:357-377 | one normalised text containing the other matches, so equal and empty texts match; without containment, a match is exactly a word overlap of at least 60 percent between two non-empty word sets |
| Matcher.FuzzyMatchSymmetric | bandcamper/metadata/bandcamp_writer.py:357-377 | the comparison does not depend on the order of its arguments |
| Matcher.FuzzyMatchNormalized | bandcamper/metadata/bandcamp_writer.py:360-361 | normalising an argument beforehand changes nothing |
| Matcher.FirstNumber | bandcamper/metadata/bandcamp_writer.py:337-339 | the value of the leftmost run of digits, taken whole, and none exactly when the text has no digit |
| Matcher.LeftmostRunUnique | bandcamper/metadata/bandcamp_writer.py:337-339 | a text has only one leftmost digit run, so the number found is determined |
| Matcher.PaddedNumberReadsBack | bandcamper/metadata/bandcamp_writer.py:337-339 | a name starting with a zero-padded track number reads back as that number |
| Matcher.LowerFirstNumber | bandcamper/metadata/bandcamp_writer.py:334-339 | lower-casing the stem does not change the number found in it |
| Matcher.NumberMatch | bandcamper/metadata/bandcamp_writer.py:337-343 | the first track whose number is the stem's number, and none exactly when the stem has no number or no track has it |
| Matcher.TitleIndex | bandcamper/metadata/bandcamp_writer.py:345-349 | the first track with a non-empty title that the stem matches fuzzily, and none exactly when no such track exists |
| Matcher.FindMatchingTrack | bandcamper/metadata/bandcamp_writer.py:326-355 | no tracks give no match; a result is always one of the tracks; a number match wins, then a title match, then the only track of a single-track release |
| Matcher.NumberMatchIgnoresTitles | bandcamper/metadata/bandcamp_writer.py:338-343 | a number match ignores titles: retitled tracks are matched at the same position |
| Matcher.PaddedStemMatches | bandcamper/metadata/bandcamp_writer.py:326-343 | a file named with a track's zero-padded number matches the first track with that number |
| Writer.AssignedTags | bandcamper/metadata/bandcamp_writer.py:298-314 | a tag is set only when the handler has it and the value is truthy; title and number come only from a matched track, and number 0 is never written |
| Writer.WriteMetadata | bandcamper/metadata/bandcamp_writer.py:267-324 | an unsupported suffix fails first, then failed extraction; success exactly when the format is supported, metadata was extracted, a handler loaded and saving worked; the tags are those of the track the file's stem matches |
| Writer.WrittenTags | bandcamper/metadata/bandcamp_writer.py:298-314 | artist and album are written whenever the handler has them; a year only when one in range was found; title and number only from a track of the album, the number only when positive |

## Left out

- HTTP, the session and status handling are not modelled. A page is given already fetched, or as a failed request with its status.
- HTML parsing (BeautifulSoup) is not modelled. A page is the record of what each selector finds, with `get_text()` already applied.
- JSON decoding of the page data is not modelled. A blob that fails to decode is an absent source of `Years.YearSources`.
- The mailbox service, its sender filter and `sleep` are not modelled. Each check of the inbox is an entry of a given sequence of message lists.
- Zip extraction, `mkdir`, moving and deleting files, and writing `cover.png` are filesystem effects. The model stops at the path a file moves to.
- DNS resolution for custom domains is a function parameter `ipOf`.
- `pathvalidate.sanitize_filepath` is a foreign library. The path is modelled up to the point it is called.
- `urlparse`, `geturl` and `urljoin` are a simplified URL record. It splits scheme, host, path, query and fragment; `;params` and IPv6 hosts are not treated specially.
- `Resolver.LinkUrl`: `urljoin` is modelled only for the bases `_add_urls_from_artist` builds, as the base, one `/` and the trimmed path. Python's `urljoin` differs on inputs this leaves out: it resolves dot segments and drops empty ones (`a//b` gives `/a/b`), it returns the bare relative path for a scheme outside `uses_relative` (`mailto:x@y` gives `x@y` where the model gives `mailto:///x@y`), and it reads a trimmed path such as `foo:bar` as a URL of its own.
- `Resolver.ExpandArtist`: a grid anchor without `href` makes `urlparse(None)` return a bytes result, and the `.strip("/ ")` at bandcamper/bandcamper.py:97-104 then raises `TypeError`. The model's links are strings, so this crash has no counterpart.
- `Paths.JoinPath`: pathlib's normalisation is not modelled, except that `Path("")` and `Path(".")` add nothing. A rendered name with an empty field (`{artist}/{album}/…` with the empty album) keeps its `//`, where pathlib collapses it to one `/`.
- `FilenameFormatter`, `get_track_output_context`, `suffix_to_metadata` and `get_track_metadata` are defined in files outside this model. They become a plain field-substitution template, a given track context, a set of supported suffixes and a handler record.
- The random filename template of `_free_download` and the zip/file distinction after the download are filesystem details. Each format yields at most one fetch.
- Logging through `Screamer` and `print` is not modelled.
- Python's iteration order of the requested format set is not fixed by the language. `Downloads.PlanDownload` takes it as a parameter.
- `_write_metadata_to_files` (bandcamper/bandcamper.py:440-473) is a loop of `Writer.WriteMetadata` over the audio files with a count of successes, and is not modelled separately.
- `_get_music_data` (bandcamper/bandcamper.py:137-153) is JSON and HTML access. Its result is the `Downloads.MusicData` record.
- Character classes are ASCII. Letters, `\d`, `\w` and `lower()` beyond ASCII are not modelled. White space is the full set `str.isspace` accepts. `int()` of non-ASCII digits is not modelled.
- `Downloads.PlanDownload`: the `ValueError` at bandcamper/bandcamper.py:393 cannot be reached, since the branch before it returns whenever fallback is off. The model has no such outcome.
- `Downloads.TrackNumberText`: a track without a number is named with the literal `1`, not `01`, exactly as the source formats it.
- `Paths.MoveFile`: this is the composition with the intended split; `Paths.MoveFileAsWritten` is the one the source performs. The source also updates the caller's context dict in place, so keys set for one file stay for the next. The model returns the updated context, and the caller passes it on.
- `Matcher.FuzzyMatch`: an empty normalised text is contained in any text, so a stem or title of only separators matches everything, as in the source.
- `Matcher.OverlapRatio`: the 0.6 threshold is compared as an exact rational. Floating-point rounding of the division is not modelled.
- `Extractor.ExtractAlbumMetadata`: an exception raised while extracting (caught at bandcamp_writer.py:72-74) cannot occur in the model, since all inputs are already extracted.
- `Writer.WriteMetadata`: an exception from the handler other than a failed save is folded into `NoHandler` or `SaveFailed`.

## Findings

| source | as written | input that shows it | evidently intended | confidence | as-written member | corrected member |
|---|---|---|---|---|---|---|
| bandcamper/bandcamper.py:256-274 | the split pattern requires an audio extension, so any other file has every `/` of its full path replaced by `-` | `/music/A/cover.jpg` becomes `-music-A-cover.jpg`, a file in the working directory | the directory part is kept for every file, and only the name is sanitised | high, not executed | Paths.SanitizeFilePathAsWritten (Paths.ExtraFileFlattened, Paths.ExtraFileExample, Paths.MoveFileAsWritten, Paths.MoveFileExtrasFlattened) | Paths.SanitizeFilePath (Paths.SanitizeKeepsDirectories, Paths.MoveFileLevels) |
| bandcamper/bandcamper.py:256-269 | `.` does not match a line break, so the search matches only on the last line and the text before it is dropped | `/d/A`, a line break, then `B/t.mp3` becomes `B/t.mp3` | the whole path is kept | medium, not executed | Paths.SanitizeFilePathAsWritten (Paths.LineBreakDropsDirectory, Paths.LineBreakExample) | Paths.SanitizeFilePath (Paths.SanitizeKeepsDirectories) |
| bandcamper/bandcamper.py:313-314 | `title` is rebound to the first track's title and stays bound for the later tracks | an album with tracks titled `One` and `Two`: the second file is named with `One` | each track is named with its own title when no title is given | high, not executed | Downloads.FallbackRequestsAsWritten (Downloads.SecondTrackMisnamed, Downloads.FirstTitleReused) | Downloads.FallbackRequests (Downloads.FallbackRequestsMeaning, Downloads.FallbackAgreesWithTitle) |
