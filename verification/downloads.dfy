/** How a release is downloaded: the strategy `Bandcamper.download_from_url`
    picks, the per-format steps of `Bandcamper._free_download`, and the
    preview files `Bandcamper.download_fallback_mp3` asks for. Requests,
    archives and the filesystem are inputs; what is modelled is which
    request is made for what. */
module Downloads {
  import opened Wrappers
  import opened Strings
  import opened Urls

  /** The preview format every release offers. */
  const PreviewFormat := "mp3-128"

  /** One entry of a release's `trackinfo`: its number (`None` for a lone
      track), its title, and its `file` dict of preview URLs by format. */
  datatype TrackInfo = TrackInfo(trackNum: Option<int>, title: string, file: map<string, string>)

  /** A file `download_to_file` is asked for: its URL, the filename
      template (`{ext}` is filled by the downloader) and the label. */
  datatype Request = Request(url: string, template: string, fileLabel: string)

  /** A dict entry missing from the page data: the `KeyError` raised. */
  datatype DownloadError = MissingKey(key: string) | RequestFailed(status: int) | MissingYear

  /** The number part of a preview file name: `%02d` of the track number,
      or `1` for a track without one. */
  function TrackNumberText(trackNum: Option<int>): (r: string)
    ensures trackNum.None? ==> r == "1"
    ensures trackNum.Some? && trackNum.value >= 0 ==> |r| >= 2 && AllDigits(r) && NumberValue(r) == trackNum.value
    ensures trackNum.Some? && 0 <= trackNum.value < 10 ==> |r| == 2 && r[0] == '0'
    ensures trackNum.Some? && trackNum.value >= 10 ==> r[0] != '0' && r == Decimal(trackNum.value)
    ensures trackNum.Some? && trackNum.value < 0 ==> r == "-" + Decimal(-trackNum.value)
  {
    match trackNum
    case None => "1"
    case Some(n) => Pad2(n)
  }

  /** The request for one track's preview, named with `title`. */
  function PreviewRequest(track: TrackInfo, artist: string, album: string, title: string): (r: Result<Request, DownloadError>)
    ensures r.Success? <==> PreviewFormat in track.file
    ensures r.Success? ==> r.value.url == track.file[PreviewFormat]
    ensures r.Failure? ==> r.error == MissingKey(PreviewFormat)
    ensures r.Success? ==> r.value.fileLabel == TrackNumberText(track.trackNum) + ".mp3"
    ensures r.Success? ==>
      r.value.template == artist + " - " + album + " - " + TrackNumberText(track.trackNum) + " " + title + "{ext}"
  {
    if PreviewFormat !in track.file then Failure(MissingKey(PreviewFormat))
    else
      var number := TrackNumberText(track.trackNum);
      Success(Request(track.file[PreviewFormat],
                      artist + " - " + album + " - " + number + " " + title + "{ext}",
                      number + ".mp3"))
  }

  /** The tracks that have preview files (a non-empty `file` dict). */
  function Previewable(tracks: seq<TrackInfo>): (r: seq<TrackInfo>)
    ensures |r| <= |tracks|
    ensures forall i :: 0 <= i < |r| ==> r[i].file != map[]
  {
    if |tracks| == 0 then []
    else (if tracks[0].file != map[] then [tracks[0]] else []) + Previewable(tracks[1..])
  }

  /** Exactly the tracks with preview files are kept. */
  lemma {:induction false} PreviewableMembers(tracks: seq<TrackInfo>, t: TrackInfo)
    ensures t in Previewable(tracks) <==> t in tracks && t.file != map[]
  {
    if |tracks| > 0 {
      PreviewableMembers(tracks[1..], t);
      assert tracks == [tracks[0]] + tracks[1..];
    }
  }

  lemma {:induction false} PreviewableAppend(a: seq<TrackInfo>, b: seq<TrackInfo>)
    ensures Previewable(a + b) == Previewable(a) + Previewable(b)
  {
    if |a| > 0 {
      assert (a + b)[1..] == a[1..] + b;
      PreviewableAppend(a[1..], b);
    } else {
      assert a + b == b;
    }
  }

  /** `download_fallback_mp3` as written: when `title` is `None` it is bound
      to the first previewable track's title, and that binding is kept for
      every later track. */
  function FallbackRequestsAsWritten(tracks: seq<TrackInfo>, artist: string, album: string,
                                     title: Option<string>): (r: Result<seq<Request>, DownloadError>)
    ensures r.Success? ==> |r.value| == |Previewable(tracks)|
    ensures r.Failure? ==> r.error == MissingKey(PreviewFormat)
  {
    if |tracks| == 0 then Success([])
    else if tracks[0].file == map[] then FallbackRequestsAsWritten(tracks[1..], artist, album, title)
    else
      var name := title.GetOr(tracks[0].title);
      var head :- PreviewRequest(tracks[0], artist, album, name);
      var tail :- FallbackRequestsAsWritten(tracks[1..], artist, album, Some(name));
      Success([head] + tail)
  }

  /** The values of a sequence of results, or the first error among them. */
  function CollectResults<T, E>(rs: seq<Result<T, E>>): (r: Result<seq<T>, E>)
    ensures r.Success? <==> forall i :: 0 <= i < |rs| ==> rs[i].Success?
    ensures r.Success? ==> |r.value| == |rs| && forall i :: 0 <= i < |rs| ==> rs[i] == Success(r.value[i])
    ensures r.Failure? ==> exists i :: FirstFailureAt(rs, i) && rs[i] == Failure(r.error)
  {
    if |rs| == 0 then Success([])
    else if rs[0].Failure? then
      assert FirstFailureAt(rs, 0);
      Failure(rs[0].error)
    else
      var tail := CollectResults(rs[1..]);
      assert forall i :: 1 <= i < |rs| ==> rs[i] == rs[1..][i - 1];
      if tail.Failure? then
        FirstFailureShift(rs, tail.error);
        Failure(tail.error)
      else Success([rs[0].value] + tail.value)
  }

  /** A first failure after a success is the first failure of the whole. */
  lemma FirstFailureShift<T, E>(rs: seq<Result<T, E>>, e: E)
    requires |rs| > 0 && rs[0].Success?
    requires exists i :: FirstFailureAt(rs[1..], i) && rs[1..][i] == Failure(e)
    ensures exists i :: FirstFailureAt(rs, i) && rs[i] == Failure(e)
  {
    var i :| FirstFailureAt(rs[1..], i) && rs[1..][i] == Failure(e);
    assert FirstFailureAt(rs, i + 1);
  }

  /** `rs[i]` is the first failure of `rs`: every earlier result succeeded. */
  predicate FirstFailureAt<T, E>(rs: seq<Result<T, E>>, i: int) {
    0 <= i < |rs| && rs[i].Failure? && forall j :: 0 <= j < i ==> rs[j].Success?
  }

  /** The request for each track, named with `title` or the track's own. */
  function NamedRequests(tracks: seq<TrackInfo>, artist: string, album: string,
                         title: Option<string>): (r: seq<Result<Request, DownloadError>>)
    ensures |r| == |tracks|
    ensures forall i :: 0 <= i < |tracks| ==> r[i] == PreviewRequest(tracks[i], artist, album, title.GetOr(tracks[i].title))
  {
    seq(|tracks|, i requires 0 <= i < |tracks| => PreviewRequest(tracks[i], artist, album, title.GetOr(tracks[i].title)))
  }

  /** `download_fallback_mp3` as evidently intended: one request per
      previewable track, in order, each named with the given title or,
      without one, with the track's own title; a previewable track without
      the `mp3-128` file stops the call. */
  function FallbackRequests(tracks: seq<TrackInfo>, artist: string, album: string,
                            title: Option<string>): (r: Result<seq<Request>, DownloadError>)
    ensures r.Success? ==> |r.value| == |Previewable(tracks)|
    ensures r.Failure? ==> r.error == MissingKey(PreviewFormat)
  {
    var rs := NamedRequests(Previewable(tracks), artist, album, title);
    var r := CollectResults(rs);
    assert r.Failure? ==> exists i :: 0 <= i < |rs| && rs[i] == Failure(r.error);
    r
  }

  /** Every one of `tracks` has the `mp3-128` file. */
  predicate HavePreviews(tracks: seq<TrackInfo>) {
    forall i :: 0 <= i < |tracks| ==> PreviewFormat in tracks[i].file
  }

  /** The intended requests succeed exactly when every track with preview
      files has the `mp3-128` one, and then the i-th request is the preview
      request of the i-th such track. */
  lemma FallbackRequestsMeaning(tracks: seq<TrackInfo>, artist: string, album: string, title: Option<string>)
    ensures FallbackRequests(tracks, artist, album, title).Success? <==> HavePreviews(Previewable(tracks))
    ensures var p := Previewable(tracks);
            var r := FallbackRequests(tracks, artist, album, title);
            r.Success? ==> forall i :: 0 <= i < |p| ==>
              Success(r.value[i]) == PreviewRequest(p[i], artist, album, title.GetOr(p[i].title))
  {
    var p := Previewable(tracks);
    var rs := NamedRequests(p, artist, album, title);
    var r := CollectResults(rs);
    assert r == FallbackRequests(tracks, artist, album, title);
    if r.Success? {
      forall i | 0 <= i < |p| ensures PreviewFormat in p[i].file {
        assert rs[i] == Success(r.value[i]);
      }
    } else {
      var k :| 0 <= k < |rs| && rs[k] == Failure(r.error);
      assert PreviewFormat !in p[k].file;
    }
  }

  /** The intended requests of a concatenation are the requests of its
      parts: each track is named on its own. */
  lemma FallbackRequestsAppend(a: seq<TrackInfo>, b: seq<TrackInfo>, artist: string,
                               album: string, title: Option<string>)
    requires FallbackRequests(a, artist, album, title).Success?
    requires FallbackRequests(b, artist, album, title).Success?
    ensures FallbackRequests(a + b, artist, album, title)
         == Success(FallbackRequests(a, artist, album, title).value + FallbackRequests(b, artist, album, title).value)
  {
    PreviewableAppend(a, b);
    var pa, pb := Previewable(a), Previewable(b);
    var p := Previewable(a + b);
    var r := FallbackRequests(a + b, artist, album, title);
    assert r.Success? by {
      FallbackRequestsMeaning(a, artist, album, title);
      FallbackRequestsMeaning(b, artist, album, title);
      FallbackRequestsMeaning(a + b, artist, album, title);
      forall i | 0 <= i < |p|
        ensures PreviewFormat in p[i].file
      {
        if i < |pa| {
          assert p[i] == pa[i];
        } else {
          assert p[i] == pb[i - |pa|];
        }
      }
    }
    var ra := FallbackRequests(a, artist, album, title).value;
    var rb := FallbackRequests(b, artist, album, title).value;
    forall i | 0 <= i < |p|
      ensures r.value[i] == (ra + rb)[i]
    {
      FallbackAppendAt(a, b, artist, album, title, i);
    }
    assert r.value == ra + rb;
  }

  /** One position of `FallbackRequestsAppend`. */
  lemma FallbackAppendAt(a: seq<TrackInfo>, b: seq<TrackInfo>, artist: string, album: string, title: Option<string>, i: nat)
    requires FallbackRequests(a, artist, album, title).Success?
    requires FallbackRequests(b, artist, album, title).Success?
    requires FallbackRequests(a + b, artist, album, title).Success?
    requires i < |Previewable(a + b)|
    requires Previewable(a + b) == Previewable(a) + Previewable(b)
    ensures FallbackRequests(a + b, artist, album, title).value[i]
         == (FallbackRequests(a, artist, album, title).value + FallbackRequests(b, artist, album, title).value)[i]
  {
    var pa, pb := Previewable(a), Previewable(b);
    var ra := FallbackRequests(a, artist, album, title).value;
    var rb := FallbackRequests(b, artist, album, title).value;
    FallbackRequestAt(a + b, artist, album, title, i);
    if i < |pa| {
      FallbackRequestAt(a, artist, album, title, i);
      assert Previewable(a + b)[i] == pa[i];
      assert (ra + rb)[i] == ra[i];
    } else {
      FallbackRequestAt(b, artist, album, title, i - |pa|);
      assert Previewable(a + b)[i] == pb[i - |pa|];
      assert (ra + rb)[i] == rb[i - |pa|];
    }
  }

  /** The request made for the `i`-th previewable track. */
  lemma FallbackRequestAt(tracks: seq<TrackInfo>, artist: string, album: string, title: Option<string>, i: nat)
    requires FallbackRequests(tracks, artist, album, title).Success?
    requires i < |Previewable(tracks)|
    ensures var t := Previewable(tracks)[i];
            Success(FallbackRequests(tracks, artist, album, title).value[i]) == PreviewRequest(t, artist, album, title.GetOr(t.title))
  {
    FallbackRequestsMeaning(tracks, artist, album, title);
  }

  /** With a title given, the code as written and the intended requests
      agree. */
  lemma {:induction false} FallbackAgreesWithTitle(tracks: seq<TrackInfo>, artist: string, album: string, title: string)
    ensures FallbackRequestsAsWritten(tracks, artist, album, Some(title)) == FallbackRequests(tracks, artist, album, Some(title))
  {
    if |tracks| > 0 {
      FallbackAgreesWithTitle(tracks[1..], artist, album, title);
      if tracks[0].file != map[] {
        AgreeStep(tracks, artist, album, title);
      } else {
        assert Previewable(tracks) == Previewable(tracks[1..]);
      }
    }
  }

  /** The step of `FallbackAgreesWithTitle` for a track with preview files. */
  lemma AgreeStep(tracks: seq<TrackInfo>, artist: string, album: string, title: string)
    requires |tracks| > 0 && tracks[0].file != map[]
    requires FallbackRequestsAsWritten(tracks[1..], artist, album, Some(title)) == FallbackRequests(tracks[1..], artist, album, Some(title))
    ensures FallbackRequestsAsWritten(tracks, artist, album, Some(title)) == FallbackRequests(tracks, artist, album, Some(title))
  {
    var rest := NamedRequests(Previewable(tracks[1..]), artist, album, Some(title));
    var head := PreviewRequest(tracks[0], artist, album, title);
    assert Previewable(tracks) == [tracks[0]] + Previewable(tracks[1..]);
    NamedCons(tracks[0], Previewable(tracks[1..]), artist, album, title);
    CollectCons(head, rest);
  }
  lemma NamedCons(t: TrackInfo, q: seq<TrackInfo>, artist: string, album: string, title: string)
    ensures NamedRequests([t] + q, artist, album, Some(title))
         == [PreviewRequest(t, artist, album, title)] + NamedRequests(q, artist, album, Some(title))
  {
    var l := NamedRequests([t] + q, artist, album, Some(title));
    var m := [PreviewRequest(t, artist, album, title)] + NamedRequests(q, artist, album, Some(title));
    assert |l| == |m|;
    forall i | 0 <= i < |l| ensures l[i] == m[i] {
      if i > 0 {
        assert ([t] + q)[i] == q[i - 1];
      }
    }
  }
  lemma CollectCons<T, E>(x: Result<T, E>, xs: seq<Result<T, E>>)
    ensures CollectResults([x] + xs)
         == if x.Failure? then Failure(x.error)
            else if CollectResults(xs).Failure? then Failure(CollectResults(xs).error)
            else Success([x.value] + CollectResults(xs).value)
  {
    assert ([x] + xs)[0] == x && ([x] + xs)[1..] == xs;
  }

  /** Without a title, the code as written names every previewable track
      with the title of the first one: it makes the intended requests for
      that title. */
  lemma {:induction false} FirstTitleReused(tracks: seq<TrackInfo>, artist: string, album: string)
    requires |Previewable(tracks)| > 0
    ensures FallbackRequestsAsWritten(tracks, artist, album, None)
         == FallbackRequests(tracks, artist, album, Some(Previewable(tracks)[0].title))
  {
    if tracks[0].file == map[] {
      assert Previewable(tracks) == Previewable(tracks[1..]);
      FirstTitleReused(tracks[1..], artist, album);
    } else {
      var name := tracks[0].title;
      assert Previewable(tracks)[0] == tracks[0];
      assert FallbackRequestsAsWritten(tracks, artist, album, None)
          == FallbackRequestsAsWritten(tracks, artist, album, Some(name));
      FallbackAgreesWithTitle(tracks, artist, album, name);
    }
  }

  /** Without a title, the code as written names the second previewable
      track of an album with the first track's title. */
  lemma SecondTrackMisnamed(t1: TrackInfo, t2: TrackInfo, artist: string, album: string)
    requires t1.file != map[] && t2.file != map[] && PreviewFormat in t1.file && PreviewFormat in t2.file
    requires t1.title != t2.title
    ensures var asWritten := FallbackRequestsAsWritten([t1, t2], artist, album, None);
            var intended := FallbackRequests([t1, t2], artist, album, None);
            && asWritten.Success? && intended.Success?
            && asWritten.value[1] == PreviewRequest(t2, artist, album, t1.title).value
            && intended.value[1] == PreviewRequest(t2, artist, album, t2.title).value
            && asWritten.value[1] != intended.value[1]
  {
    assert [t1, t2][1..] == [t2];
    assert [t2][1..] == [];
    var a := PreviewRequest(t2, artist, album, t1.title);
    var b := PreviewRequest(t2, artist, album, t2.title);
    var w2 := FallbackRequestsAsWritten([t2], artist, album, Some(t1.title));
    assert [t2][0] == t2;
    assert FallbackRequestsAsWritten([], artist, album, Some(t1.title)) == Success([]);
    assert w2 == Success([a.value] + []);
    assert FallbackRequestsAsWritten([t1, t2], artist, album, None)
        == Success([PreviewRequest(t1, artist, album, t1.title).value] + w2.value);
    assert Previewable([t2]) == [t2] + Previewable([]);
    assert Previewable([t1, t2]) == [t1] + Previewable([t2]);
    assert Previewable([t1, t2])[1] == t2;
    TemplatesDiffer(t2, artist, album, t1.title, t2.title);
  }

  /** Preview requests for the same track under different titles differ. */
  lemma TemplatesDiffer(t: TrackInfo, artist: string, album: string, x: string, y: string)
    requires PreviewFormat in t.file && x != y
    ensures PreviewRequest(t, artist, album, x).value != PreviewRequest(t, artist, album, y).value
  {
    var prefix := artist + " - " + album + " - " + TrackNumberText(t.trackNum) + " ";
    var a := PreviewRequest(t, artist, album, x).value.template;
    var b := PreviewRequest(t, artist, album, y).value.template;
    assert a == prefix + x + "{ext}";
    assert b == prefix + y + "{ext}";
    if |x| != |y| {
      assert |a| != |b|;
    } else {
      assert a[|prefix|..|prefix| + |x|] == x;
      assert b[|prefix|..|prefix| + |y|] == y;
    }
  }

  /** What `_free_download` does for one requested format. */
  datatype FormatStep =
    | Fetch(format: string, url: string, fileLabel: Option<string>)
    | StatFailed(format: string, statUrl: string)
    | NotOffered(format: string)
  {
    function Format(): string {
      match this
      case Fetch(f, _, _) => f
      case StatFailed(f, _) => f
      case NotOffered(f) => f
    }
  }

  /** The JSON the stat URL answers with. */
  datatype StatReply = StatReply(result: string, downloadUrl: Option<string>, retryUrl: Option<string>)

  /** The stat URL of a download descriptor: the path with every
      `/download/` replaced by `/statdownload/`. */
  function StatUrl(descriptor: string): string {
    var u := Parse(descriptor);
    Unsplit(u.(path := ReplaceAll(u.path, "/download/", "/statdownload/")))
  }

  /** A download descriptor whose path holds no `/download/` is asked for
      its status at its own URL. */
  lemma StatUrlUnchanged(u: Url)
    requires WellFormed(u) && !Contains(u.path, "/download/")
    ensures StatUrl(Unsplit(u)) == Unsplit(u)
  {
    ParseUnsplit(u);
    ReplaceAllAbsent(u.path, "/download/", "/statdownload/");
    assert Parse(Unsplit(u)).(path := ReplaceAll(u.path, "/download/", "/statdownload/")) == u;
  }

  /** A descriptor path starting with `/download/` is asked for at
      `/statdownload/` and the same rest. */
  lemma StatUrlPath(u: Url, rest: string)
    requires WellFormed(u) && u.path == "/download/" + rest
    ensures StatUrl(Unsplit(u)) == Unsplit(u.(path := "/statdownload/" + ReplaceAll(rest, "/download/", "/statdownload/")))
  {
    ParseUnsplit(u);
    ReplaceAllPrefix("/download/", rest, "/statdownload/");
  }

  /** One format of `_free_download`: skipped when not offered; otherwise
      the stat reply decides, ignoring case, between the download URL
      (`ok`), the retry URL (`err`) and an error. The label names the
      archive for an album. */
  function Step(format: string, itemType: string, downloadable: map<string, string>,
                stat: string -> Result<StatReply, int>): (r: Result<FormatStep, DownloadError>)
    ensures r.Success? ==> r.value.Format() == format
    ensures format !in downloadable <==> r == Success(NotOffered(format))
    ensures r.Success? && r.value.Fetch? ==> format in downloadable && stat(StatUrl(downloadable[format])).Success?
    ensures r.Success? && r.value.Fetch? ==>
              var reply := stat(StatUrl(downloadable[format])).value;
              (Lower(reply.result) == "ok" && reply.downloadUrl == Some(r.value.url))
              || (Lower(reply.result) == "err" && reply.retryUrl == Some(r.value.url))
    ensures r.Success? && r.value.Fetch? ==> r.value.fileLabel == (if itemType == "album" then Some(format + ".zip") else None)
    ensures r.Success? && r.value.StatFailed? ==>
              format in downloadable && stat(StatUrl(downloadable[format])).Success?
              && Lower(stat(StatUrl(downloadable[format])).value.result) !in {"ok", "err"}
    ensures format in downloadable && stat(StatUrl(downloadable[format])).Failure? ==>
              r == Failure(RequestFailed(stat(StatUrl(downloadable[format])).error))
    ensures format in downloadable && stat(StatUrl(downloadable[format])).Success? ==>
              StepOnReply(format, itemType, StatUrl(downloadable[format]), stat(StatUrl(downloadable[format])).value, r)
  {
    if format !in downloadable then Success(NotOffered(format))
    else
      var statUrl := StatUrl(downloadable[format]);
      match stat(statUrl)
      case Failure(status) => Failure(RequestFailed(status))
      case Success(reply) =>
        var fileLabel := if itemType == "album" then Some(format + ".zip") else None;
        var result := Lower(reply.result);
        if result == "ok" then
          if reply.downloadUrl.None? then Failure(MissingKey("download_url"))
          else Success(Fetch(format, reply.downloadUrl.value, fileLabel))
        else if result == "err" then
          if reply.retryUrl.None? then Failure(MissingKey("retry_url"))
          else Success(Fetch(format, reply.retryUrl.value, fileLabel))
        else Success(StatFailed(format, statUrl))
  }

  /** The status result is read without regard to case, and only the reply
      for this format's stat URL matters: two status services that answer
      that URL alike up to the case of the result give the same step. */
  lemma StepIgnoresResultCase(format: string, itemType: string, downloadable: map<string, string>,
                              stat: string -> Result<StatReply, int>, other: string -> Result<StatReply, int>)
    requires format in downloadable
    requires var u := StatUrl(downloadable[format]);
             && stat(u).Success? && other(u).Success?
             && other(u).value.downloadUrl == stat(u).value.downloadUrl
             && other(u).value.retryUrl == stat(u).value.retryUrl
             && Lower(other(u).value.result) == Lower(stat(u).value.result)
    ensures Step(format, itemType, downloadable, other) == Step(format, itemType, downloadable, stat)
  {
  }

  /** How one status reply decides a step: `ok` fetches the download URL,
      `err` the retry URL (a reply without that URL is a missing key),
      and any other result is reported and skipped. */
  predicate StepOnReply(format: string, itemType: string, statUrl: string, reply: StatReply,
                        r: Result<FormatStep, DownloadError>) {
    var fileLabel := if itemType == "album" then Some(format + ".zip") else None;
    && (Lower(reply.result) == "ok" && reply.downloadUrl.Some? ==> r == Success(Fetch(format, reply.downloadUrl.value, fileLabel)))
    && (Lower(reply.result) == "ok" && reply.downloadUrl.None? ==> r == Failure(MissingKey("download_url")))
    && (Lower(reply.result) == "err" && reply.retryUrl.Some? ==> r == Success(Fetch(format, reply.retryUrl.value, fileLabel)))
    && (Lower(reply.result) == "err" && reply.retryUrl.None? ==> r == Failure(MissingKey("retry_url")))
    && (Lower(reply.result) !in {"ok", "err"} ==> r == Success(StatFailed(format, statUrl)))
  }

  /** `_free_download`: the formats in the order asked, one step each; the
      first request that fails ends the call. */
  function FreeDownload(formats: seq<string>, itemType: string, downloadable: map<string, string>,
                        stat: string -> Result<StatReply, int>): (r: Result<seq<FormatStep>, DownloadError>)
    ensures r.Success? ==> |r.value| == |formats|
    ensures r.Success? ==> forall i :: 0 <= i < |formats| ==> Step(formats[i], itemType, downloadable, stat) == Success(r.value[i])
    ensures r.Failure? ==> exists i :: FirstFailureAt(Steps(formats, itemType, downloadable, stat), i)
                                     && Step(formats[i], itemType, downloadable, stat) == Failure(r.error)
  {
    CollectResults(Steps(formats, itemType, downloadable, stat))
  }

  /** The step of each format, on its own. */
  function Steps(formats: seq<string>, itemType: string, downloadable: map<string, string>,
                 stat: string -> Result<StatReply, int>): (r: seq<Result<FormatStep, DownloadError>>)
    ensures |r| == |formats|
    ensures forall i :: 0 <= i < |formats| ==> r[i] == Step(formats[i], itemType, downloadable, stat)
  {
    seq(|formats|, i requires 0 <= i < |formats| => Step(formats[i], itemType, downloadable, stat))
  }

  /** The number of archives or files `_free_download` fetches. */
  function Fetched(steps: seq<FormatStep>): nat {
    if |steps| == 0 then 0 else (if steps[0].Fetch? then 1 else 0) + Fetched(steps[1..])
  }

  /** At most one file per requested format, and none for a format the
      release does not offer. */
  lemma FetchedBound(formats: seq<string>, itemType: string, downloadable: map<string, string>,
                      stat: string -> Result<StatReply, int>)
    requires FreeDownload(formats, itemType, downloadable, stat).Success?
    ensures Fetched(FreeDownload(formats, itemType, downloadable, stat).value) <= |formats|
    ensures (forall f :: f in formats ==> f !in downloadable) ==> Fetched(FreeDownload(formats, itemType, downloadable, stat).value) == 0
  {
    var rs := Steps(formats, itemType, downloadable, stat);
    var steps := FreeDownload(formats, itemType, downloadable, stat).value;
    assert |steps| == |formats|;
    FetchedAtMost(steps);
    if forall f :: f in formats ==> f !in downloadable {
      forall i | 0 <= i < |steps|
        ensures !steps[i].Fetch?
      {
        assert formats[i] in formats;
        assert rs[i] == Success(steps[i]);
      }
      FetchedNone(steps);
    }
  }

  lemma {:induction false} FetchedAtMost(steps: seq<FormatStep>)
    ensures Fetched(steps) <= |steps|
  {
    if |steps| > 0 {
      FetchedAtMost(steps[1..]);
    }
  }

  lemma {:induction false} FetchedNone(steps: seq<FormatStep>)
    requires forall i :: 0 <= i < |steps| ==> !steps[i].Fetch?
    ensures Fetched(steps) == 0
  {
    if |steps| > 0 {
      FetchedNone(steps[1..]);
    }
  }

  /** The source of the files, in the priority `download_from_url` checks:
      the free download page, an emailed download link, the preview files,
      or nothing at all. */
  datatype Strategy = FreePage(page: string) | EmailGated | Preview | NoDownload

  /** The strategy: a free page first, then an email gate, then the
      preview files when fallback is on or `mp3-128` was asked for;
      otherwise the call returns quietly. */
  function SelectStrategy(freeDownloadPage: Option<string>, requireEmail: bool, fallback: bool,
                          wantsPreview: bool): (r: Strategy)
    ensures r.FreePage? <==> freeDownloadPage.Some? && freeDownloadPage.value != ""
    ensures r.FreePage? ==> r.page == freeDownloadPage.value
    ensures r.EmailGated? <==> !r.FreePage? && requireEmail
    ensures r.Preview? <==> !r.FreePage? && !requireEmail && (fallback || wantsPreview)
    ensures r.NoDownload? <==> !r.FreePage? && !requireEmail && !fallback && !wantsPreview
  {
    if freeDownloadPage.Some? && freeDownloadPage.value != "" then FreePage(freeDownloadPage.value)
    else if requireEmail then EmailGated
    else if fallback || wantsPreview then Preview
    else NoDownload
  }

  /** The release data `download_from_url` reads. */
  datatype MusicData = MusicData(
    itemType: string,
    artist: string,
    currentTitle: string,
    albumTitle: Option<string>,
    releaseDate: Option<string>,
    publishDate: string,
    freeDownloadPage: Option<string>,
    requireEmail: bool,
    trackinfo: seq<TrackInfo>)

  /** The album an item belongs to, and the title its preview files carry:
      an album is its own album and its tracks are named by their titles;
      a track has the album named on its page, if any. */
  function AlbumAndTitle(data: MusicData): (r: (string, Option<string>))
    ensures data.itemType == "album" ==> r == (data.currentTitle, None)
    ensures data.itemType != "album" ==> r.1 == Some(data.currentTitle)
    ensures data.itemType != "album" ==> r.0 == data.albumTitle.GetOr("")
  {
    if data.itemType == "album" then (data.currentTitle, None)
    else (data.albumTitle.GetOr(""), Some(data.currentTitle))
  }

  /** The year of the render context: the third word of the release date
      or, when that is missing or empty, of the publish date. */
  function ContextYear(data: MusicData): (r: Result<string, DownloadError>)
    ensures var date := if data.releaseDate.Some? && data.releaseDate.value != "" then data.releaseDate.value else data.publishDate;
            && (r.Success? <==> |Words(date)| >= 3)
            && (r.Success? ==> r.value == Words(date)[2])
  {
    var date := if data.releaseDate.Some? && data.releaseDate.value != "" then data.releaseDate.value else data.publishDate;
    var words := Words(date);
    if |words| >= 3 then Success(words[2]) else Failure(MissingYear)
  }

  /** What one call of `download_from_url` does once the release data is
      read: the strategy, the formats given to `_free_download`, whether
      the preview files are fetched after it, and the album, title and year
      the files are named with. */
  datatype Plan = Plan(strategy: Strategy, formats: seq<string>, extraPreview: bool,
                       album: string, title: Option<string>, year: string)
  {
    /** How many times the plan fetches the preview files. */
    function PreviewRuns(): nat {
      (if strategy.Preview? then 1 else 0) + (if extraPreview then 1 else 0)
    }
  }

  /** The plan of `download_from_url`. The requested formats become a set
      without `mp3-128`; `order` is the order that set is iterated in, which
      Python does not fix. The preview files are fetched at most once per
      call, and exactly once when `mp3-128` was asked for. */
  function PlanDownload(data: MusicData, requested: seq<string>, order: seq<string>, fallback: bool): (r: Result<Plan, DownloadError>)
    requires forall f :: f in order <==> (f in requested && f != PreviewFormat)
    ensures r.Failure? <==> ContextYear(data).Failure?
    ensures r.Success? ==> r.value.strategy == SelectStrategy(data.freeDownloadPage, data.requireEmail, fallback, PreviewFormat in requested)
    ensures r.Success? ==> forall f :: f in r.value.formats <==> (f in requested && f != PreviewFormat)
    ensures r.Success? ==> r.value.year == ContextYear(data).value
    ensures r.Success? ==> (r.value.album, r.value.title) == AlbumAndTitle(data)
    ensures r.Success? ==> r.value.PreviewRuns() <= 1
    ensures r.Success? ==> (PreviewFormat in requested ==> r.value.PreviewRuns() == 1)
    ensures r.Success? ==> (PreviewFormat !in requested ==> (r.value.PreviewRuns() == 1 <==> !data.requireEmail && fallback && !r.value.strategy.FreePage?))
  {
    var year :- ContextYear(data);
    var wantsPreview := PreviewFormat in requested;
    var strategy := SelectStrategy(data.freeDownloadPage, data.requireEmail, fallback, wantsPreview);
    var names := AlbumAndTitle(data);
    Success(Plan(strategy, order, wantsPreview && (strategy.FreePage? || strategy.EmailGated?), names.0, names.1, year))
  }

  /** The render context `download_from_url` starts from. */
  function BaseContext(artist: string, album: string, year: string, url: string): (r: map<string, string>)
    ensures r.Keys == {"artist", "album", "year", "bandcamp_url"}
    ensures r["artist"] == artist && r["album"] == album && r["year"] == year && r["bandcamp_url"] == url
  {
    map["artist" := artist, "album" := album, "year" := year, "bandcamp_url" := url]
  }
}
