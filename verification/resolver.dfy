/** Turning a user identifier into release URLs: `Bandcamper.add_url`, the
    subdomain and host grammars it checks, and the link collection of
    `_add_urls_from_artist`. */
module Resolver {
  import opened Wrappers
  import opened Strings
  import opened Urls

  const BandcampDomain := ".bandcamp.com"

  /** The address Bandcamp publishes for artists' custom domains. */
  const CustomDomainIp := "35.241.62.186"

  predicate IsAlnum(c: char) {
    IsAsciiLetter(c) || IsDigit(c)
  }

  predicate IsSubdomainChar(c: char) {
    IsAlnum(c) || c == '-'
  }

  /** The subdomain pattern `[a-z0-9][a-z0-9-]{2,}[a-z0-9]`, matched in full
      and ignoring case: an alphanumeric, two or more alphanumerics or
      hyphens, and a final alphanumeric. */
  predicate IsSubdomain(name: string) {
    && |name| >= 4
    && IsAlnum(name[0])
    && (forall i :: 1 <= i < |name| - 1 ==> IsSubdomainChar(name[i]))
    && IsAlnum(name[|name| - 1])
  }

  /** The host pattern `(?:www\.)?<subdomain>\.bandcamp\.com`, matched in
      full and ignoring case. A subdomain holds no dot, so the text before
      `.bandcamp.com` is either a subdomain or `www.` and a subdomain. */
  predicate IsBandcampHost(h: string) {
    && |h| >= |BandcampDomain|
    && Lower(h[|h| - |BandcampDomain|..]) == BandcampDomain
    && var sub := h[..|h| - |BandcampDomain|];
       IsSubdomain(sub) || (|sub| >= 4 && Lower(sub[..4]) == "www." && IsSubdomain(sub[4..]))
  }

  /** The grammar in plain terms: at least four characters, all letters,
      digits or hyphens, neither the first nor the last a hyphen. */
  lemma SubdomainGrammar(name: string)
    ensures IsSubdomain(name) <==>
              && |name| >= 4
              && (forall i :: 0 <= i < |name| ==> IsSubdomainChar(name[i]))
              && name[0] != '-' && name[|name| - 1] != '-'
  {
  }

  /** The artist page a bare subdomain names. */
  function ArtistRoot(name: string): string {
    "https://" + Lower(name) + BandcampDomain + "/music"
  }

  /** The outcome of fetching an artist's `/music` page: the `href` of every
      anchor inside `<ol id="music-grid">` when the page has that list, or
      the status of a failed request. */
  datatype ArtistPage = Grid(hrefs: Option<seq<string>>) | HttpError(status: int)

  datatype FetchError = HttpFailure(status: int) | NoMusicGrid

  datatype ResolveError = InvalidSource(name: string) | ArtistFetchFailed(cause: FetchError)

  /** Reported for a bare subdomain whose artist page could not be read;
      the identifier is skipped. */
  datatype Warning = NotFound(name: string) | RequestError(name: string) | NoReleases(name: string)

  datatype Added = Added(urls: set<string>, warning: Option<Warning>)

  /** `urljoin(base, rel)` for a base without a path and a relative path
      with no leading slash. */
  function Join(base: string, rel: string): string {
    if rel == "" then base else base + "/" + rel
  }

  /** The origin relative release links are resolved against: always
      `https`, with the host of the artist page. */
  function ArtistBase(sourceUrl: string): string {
    "https://" + Trim(Parse(sourceUrl).netloc, SlashOrSpace)
  }

  /** One release link of the music grid, made absolute: a link with a
      scheme keeps its own scheme and host, a link without one is resolved
      against `base`. Query and fragment are dropped, and slashes and spaces
      are trimmed from host and path. */
  function ReleaseUrl(base: string, h: Url): (r: string)
    ensures h.scheme == "" ==> |base| <= |r| && r[..|base|] == base
    ensures h.scheme != "" ==> |h.scheme| + 3 <= |r| && r[..|h.scheme| + 3] == h.scheme + "://"
  {
    var rel := Trim(h.path, SlashOrSpace);
    if h.scheme != "" then Join(h.scheme + "://" + Trim(h.netloc, SlashOrSpace), rel)
    else Join(base, rel)
  }

  function LinkUrl(base: string, href: string): string {
    ReleaseUrl(base, Parse(href))
  }

  /** A release link, read back: a link without a scheme becomes `https`
      on the host of the artist page, a link with one keeps its scheme and
      host; either way the host and path lose their surrounding slashes and
      spaces, the path starts with a single `/` unless it is empty, and
      query and fragment are dropped. Links whose host trims to nothing are
      outside this statement. */
  lemma LinkUrlParts(sourceUrl: string, href: string)
    requires var h := Parse(href);
             Trim(if h.scheme == "" then Parse(sourceUrl).netloc else h.netloc, SlashOrSpace) != ""
    ensures var h := Parse(href);
            var host := Trim(if h.scheme == "" then Parse(sourceUrl).netloc else h.netloc, SlashOrSpace);
            var rel := Trim(h.path, SlashOrSpace);
            Parse(LinkUrl(ArtistBase(sourceUrl), href))
              == Url(if h.scheme == "" then "https" else h.scheme, host, if rel == "" then "" else "/" + rel, "", "")
  {
    var h := Parse(href);
    var net := if h.scheme == "" then Parse(sourceUrl).netloc else h.netloc;
    var scheme := if h.scheme == "" then "https" else h.scheme;
    var host := Trim(net, SlashOrSpace);
    HttpsPrefix(host);
    var rel := Trim(h.path, SlashOrSpace);
    ParseParts(href);
    ParseParts(sourceUrl);
    SchemeNameSafe(scheme);
    TrimmedHost(net);
    TrimmedPath(h.path);
    var u := LinkParts(scheme, host, rel);
    var link := LinkUrl(ArtistBase(sourceUrl), href);
    assert link == Unsplit(u);
    ParseUnsplit(u);
  }

  /** `https` is a scheme name, and the base of a link resolved against an
      artist page spells it. */
  lemma HttpsPrefix(host: string)
    ensures IsSchemeName("https")
    ensures "https" + "://" + host == "https://" + host
  {
    assert "https"[0] == 'h';
    assert "https" + "://" == "https://";
  }

  /** The URL a joined link spells, given its parts. */
  function LinkParts(scheme: string, host: string, rel: string): (u: Url)
    requires IsSchemeName(scheme) && host != "" && NoUnsafe(scheme) && NoUnsafe(host) && NoUnsafe(rel)
    requires forall k :: 0 <= k < |host| ==> !IsNetlocEnd(host[k])
    requires '?' !in rel && '#' !in rel
    ensures WellFormed(u) && Unsplit(u) == Join(scheme + "://" + host, rel)
    ensures u == Url(scheme, host, if rel == "" then "" else "/" + rel, "", "")
  {
    var path := if rel == "" then "" else "/" + rel;
    var u := Url(scheme, host, path, "", "");
    LinkPartsWellFormed(scheme, host, rel);
    UnsplitShape(u, path, "//" + host + path);
    LinkJoin(scheme, host, rel);
    u
  }

  lemma LinkPartsWellFormed(scheme: string, host: string, rel: string)
    requires IsSchemeName(scheme) && host != "" && NoUnsafe(scheme) && NoUnsafe(host) && NoUnsafe(rel)
    requires forall k :: 0 <= k < |host| ==> !IsNetlocEnd(host[k])
    requires '?' !in rel && '#' !in rel
    ensures WellFormed(Url(scheme, host, if rel == "" then "" else "/" + rel, "", ""))
  {
    var path := if rel == "" then "" else "/" + rel;
    assert forall c :: c in path ==> c == '/' || c in rel;
  }

  /** Joining the base and the relative path is writing the scheme, `//`,
      the host and the path. */
  lemma LinkJoin(scheme: string, host: string, rel: string)
    ensures scheme + ":" + ("//" + host + (if rel == "" then "" else "/" + rel)) == Join(scheme + "://" + host, rel)
  {
    assert scheme + "://" == scheme + ":" + "//";
  }

  /** Trimming keeps a host free of separators, tabs and line breaks. */
  lemma TrimmedHost(net: string)
    requires forall k :: 0 <= k < |net| ==> !IsNetlocEnd(net[k])
    requires NoUnsafe(net)
    ensures var host := Trim(net, SlashOrSpace);
            (forall k :: 0 <= k < |host| ==> !IsNetlocEnd(host[k])) && NoUnsafe(host)
  {
    var i := |net| - |TrimLeft(net, SlashOrSpace)|;
    NoUnsafeSlice(net, i, i + |Trim(net, SlashOrSpace)|);
  }

  /** Trimming keeps a path free of `?`, `#`, tabs and line breaks. */
  lemma TrimmedPath(path: string)
    requires '?' !in path && '#' !in path && NoUnsafe(path)
    ensures var rel := Trim(path, SlashOrSpace);
            '?' !in rel && '#' !in rel && NoUnsafe(rel)
  {
    var rel := Trim(path, SlashOrSpace);
    var j := |path| - |TrimLeft(path, SlashOrSpace)|;
    NoUnsafeSlice(path, j, j + |rel|);
    assert forall c :: c in rel ==> c in path;
  }

  /** The set of images of a list under `f`: one element per item at
      most, and exactly the images of the items. */
  function Image<T, U>(xs: seq<T>, f: T -> U): (r: set<U>)
    ensures |r| <= |xs|
    ensures forall i :: 0 <= i < |xs| ==> f(xs[i]) in r
    ensures forall u :: u in r ==> exists i :: 0 <= i < |xs| && u == f(xs[i])
  {
    if |xs| == 0 then {}
    else
      var init := Image(xs[..|xs| - 1], f);
      assert forall i :: 0 <= i < |xs| - 1 ==> xs[..|xs| - 1][i] == xs[i];
      init + {f(xs[|xs| - 1])}
  }

  /** The release URLs of a list of links: one per link, duplicates merged. */
  function LinkUrls(base: string, hrefs: seq<string>): set<string> {
    Image(hrefs, href => LinkUrl(base, href))
  }

  /** `_add_urls_from_artist`: every anchor of the music grid, or the reason
      there is none. */
  function ExpandArtist(sourceUrl: string, page: ArtistPage): (r: Result<set<string>, FetchError>)
    ensures page.Grid? && page.hrefs.Some? <==> r.Success?
    ensures r.Success? ==> r.value == LinkUrls(ArtistBase(sourceUrl), page.hrefs.value)
    ensures page.HttpError? ==> r == Failure(HttpFailure(page.status))
  {
    match page
    case HttpError(status) => Failure(HttpFailure(status))
    case Grid(None) => Failure(NoMusicGrid)
    case Grid(Some(hrefs)) => Success(LinkUrls(ArtistBase(sourceUrl), hrefs))
  }

  /** The URL an identifier that is not a bare subdomain stands for: a
      missing scheme becomes `https`, and with `forceHttps` any scheme does. */
  function Canonical(name: string, forceHttps: bool): (u: Url)
    ensures Parse(name).scheme == "" || forceHttps ==> u.scheme == "https"
    ensures Parse(name).scheme != "" && !forceHttps ==> u == Parse(name)
    ensures Parse(name).scheme != "" ==> u == Parse(name).(scheme := u.scheme)
    ensures Parse(name).scheme == "" ==> u == Parse("https://" + name)
  {
    var p := Parse(name);
    if p.scheme == "" then
      HttpsPrefixScheme(name);
      Parse("https://" + name)
    else if forceHttps then p.(scheme := "https")
    else p
  }

  /** A path naming the artist root: empty or `music` once slashes and
      spaces are trimmed. */
  predicate IsArtistRootPath(path: string) {
    var t := Trim(path, SlashOrSpace);
    t == "" || t == "music"
  }

  /** What `Bandcamper.add_url` adds for `name`, whatever the set already
      holds: the release URLs and the warning, if any. `ipOf` resolves a
      URL's host; `fetch` reads an artist page. */
  function Resolve(name: string, forceHttps: bool,
                   ipOf: string -> string, fetch: string -> ArtistPage): (r: Result<Added, ResolveError>)
    ensures r.Success? && r.value.warning.Some? ==> r.value.urls == {} && IsSubdomain(name)
    ensures IsSubdomain(name) ==> r.Success?
    ensures var p := Canonical(name, forceHttps);
            r == Failure(InvalidSource(name)) <==>
              !IsSubdomain(name) && !IsBandcampHost(p.netloc) && ipOf(Unsplit(p)) != CustomDomainIp
    ensures IsSubdomain(name) ==> FromArtistPage(ArtistRoot(name), fetch(ArtistRoot(name)), name, r)
    ensures var p := Canonical(name, forceHttps);
            !IsSubdomain(name) && (IsBandcampHost(p.netloc) || ipOf(Unsplit(p)) == CustomDomainIp) ==>
              if IsArtistRootPath(p.path) then
                var root := p.scheme + "://" + p.netloc + "/music";
                match fetch(root)
                case Grid(Some(hrefs)) => r == Success(Added(LinkUrls(ArtistBase(root), hrefs), None))
                case Grid(None) => r == Failure(ArtistFetchFailed(NoMusicGrid))
                case HttpError(status) => r == Failure(ArtistFetchFailed(HttpFailure(status)))
              else r == Success(Added({Unsplit(p)}, None))
  {
    if IsSubdomain(name) then
      var root := ArtistRoot(name);
      match ExpandArtist(root, fetch(root))
      case Success(found) => Success(Added(found, None))
      case Failure(HttpFailure(404)) => Success(Added({}, Some(NotFound(name))))
      case Failure(HttpFailure(_)) => Success(Added({}, Some(RequestError(name))))
      case Failure(NoMusicGrid) => Success(Added({}, Some(NoReleases(name))))
    else
      var p := Canonical(name, forceHttps);
      var url := Unsplit(p);
      if IsBandcampHost(p.netloc) || ipOf(url) == CustomDomainIp then
        if IsArtistRootPath(p.path) then
          var root := p.scheme + "://" + p.netloc + "/music";
          match ExpandArtist(root, fetch(root))
          case Success(found) => Success(Added(found, None))
          case Failure(e) => Failure(ArtistFetchFailed(e))
        else Success(Added({url}, None))
      else Failure(InvalidSource(name))
  }

  /** What a bare subdomain adds, from its artist page at `root`: the
      release links of the music grid, or nothing and a warning that tells
      a missing artist (404), another failed request, and a page without
      releases apart. */
  predicate FromArtistPage(root: string, page: ArtistPage, name: string, r: Result<Added, ResolveError>) {
    match page
    case Grid(Some(hrefs)) => r == Success(Added(LinkUrls(ArtistBase(root), hrefs), None))
    case Grid(None) => r == Success(Added({}, Some(NoReleases(name))))
    case HttpError(status) =>
      r == Success(Added({}, Some(if status == 404 then NotFound(name) else RequestError(name))))
  }

  /** `Bandcamper.add_url`: adds to `urls` the release URLs that `name`
      stands for. */
  function AddUrl(urls: set<string>, name: string, forceHttps: bool,
                  ipOf: string -> string, fetch: string -> ArtistPage): (r: Result<Added, ResolveError>)
    ensures r.Success? ==> urls <= r.value.urls
    ensures r.Success? && r.value.warning.Some? ==> r.value.urls == urls && IsSubdomain(name)
    ensures IsSubdomain(name) ==> r.Success?
    ensures var p := Canonical(name, forceHttps);
            r == Failure(InvalidSource(name)) <==>
              !IsSubdomain(name) && !IsBandcampHost(p.netloc) && ipOf(Unsplit(p)) != CustomDomainIp
    ensures var d := Resolve(name, forceHttps, ipOf, fetch);
            && (r.Success? <==> d.Success?)
            && (r.Success? ==> r.value.urls == urls + d.value.urls && r.value.warning == d.value.warning)
  {
    var added :- Resolve(name, forceHttps, ipOf, fetch);
    Success(Added(urls + added.urls, added.warning))
  }

  /** Lower-casing keeps a name inside the subdomain grammar. */
  lemma LowerSubdomain(name: string)
    requires IsSubdomain(name)
    ensures IsSubdomain(Lower(name))
  {
  }

  /** The hosts the subdomain grammar builds are the ones the host grammar
      accepts, with or without `www.`. */
  lemma BuiltHostAccepted(sub: string, www: bool)
    requires IsSubdomain(sub)
    ensures IsBandcampHost((if www then "www." else "") + sub + BandcampDomain)
  {
    var h := (if www then "www." else "") + sub + BandcampDomain;
    var n := |h| - |BandcampDomain|;
    assert h[n..] == BandcampDomain;
    assert h[..n] == (if www then "www." else "") + sub;
    if www {
      assert h[..n][..4] == "www.";
      assert h[..n][4..] == sub;
    }
  }

  lemma ArtistHostChars(name: string)
    requires IsSubdomain(name)
    ensures var host := Lower(name) + BandcampDomain;
            (forall k :: 0 <= k < |host| ==> !IsNetlocEnd(host[k]) && !IsUnsafe(host[k]))
  {
    var host := Lower(name) + BandcampDomain;
    forall k | 0 <= k < |host|
      ensures !IsNetlocEnd(host[k]) && !IsUnsafe(host[k])
    {
      if k < |name| {
        assert host[k] == LowerChar(name[k]);
      } else {
        assert host[k] == BandcampDomain[k - |name|];
      }
    }
  }

  lemma ArtistRootUnsplit(name: string)
    ensures Unsplit(Url("https", Lower(name) + BandcampDomain, "/music", "", "")) == ArtistRoot(name)
  {
  }

  lemma MusicPathIsRoot()
    ensures IsArtistRootPath("/music")
  {
    var m := "music";
    assert "/music"[1..] == m;
    assert TrimLeft(m, SlashOrSpace) == m;
    assert TrimLeft("/music", SlashOrSpace) == m;
    assert TrimRight(m, SlashOrSpace) == m;
  }

  /** The artist root of a bare subdomain is a well-formed `https` URL on an
      accepted Bandcamp host whose path names the artist root. */
  lemma ArtistRootShape(name: string)
    requires IsSubdomain(name)
    ensures var host := Lower(name) + BandcampDomain;
            && Parse(ArtistRoot(name)) == Url("https", host, "/music", "", "")
            && IsBandcampHost(host)
            && IsArtistRootPath("/music")
  {
    var host := Lower(name) + BandcampDomain;
    var u := Url("https", host, "/music", "", "");
    LowerSubdomain(name);
    BuiltHostAccepted(Lower(name), false);
    ArtistHostChars(name);
    assert NoUnsafe(host);
    assert WellFormed(u);
    ParseUnsplit(u);
    ArtistRootUnsplit(name);
    MusicPathIsRoot();
  }

  /** A text with a colon is not a bare subdomain. */
  lemma ColonNotSubdomain(s: string, i: nat)
    requires i < |s| && s[i] == ':'
    ensures !IsSubdomain(s)
  {
    if |s| >= 4 && 1 <= i < |s| - 1 {
      assert !IsSubdomainChar(s[i]);
    }
  }

  /** The URL text of a URL with a scheme has a colon after the scheme. */
  lemma UnsplitColon(u: Url)
    requires u.scheme != ""
    ensures |u.scheme| < |Unsplit(u)| && Unsplit(u)[|u.scheme|] == ':'
  {
  }

  lemma ArtistRootText(name: string)
    ensures var root := ArtistRoot(name);
            && |root| > 5 && root[5] == ':'
            && root == "https" + "://" + (Lower(name) + BandcampDomain) + "/music"
  {
  }

  /** A bare subdomain and the artist-root URL it is expanded to resolve to
      the same release set whenever the artist page lists releases. */
  lemma SubdomainAgreesWithUrl(urls: set<string>, name: string, forceHttps: bool,
                               ipOf: string -> string, fetch: string -> ArtistPage)
    requires IsSubdomain(name)
    requires fetch(ArtistRoot(name)).Grid? && fetch(ArtistRoot(name)).hrefs.Some?
    ensures AddUrl(urls, name, forceHttps, ipOf, fetch) == AddUrl(urls, ArtistRoot(name), forceHttps, ipOf, fetch)
  {
    var root := ArtistRoot(name);
    var host := Lower(name) + BandcampDomain;
    ArtistRootShape(name);
    ArtistRootText(name);
    ColonNotSubdomain(root, 5);
    var p := Canonical(root, forceHttps);
    assert p == Url("https", host, "/music", "", "");
  }

  /** Adding an identifier a second time changes nothing: the URL set
      collapses duplicates. */
  lemma AddUrlIdempotent(urls: set<string>, name: string, forceHttps: bool,
                         ipOf: string -> string, fetch: string -> ArtistPage)
    requires AddUrl(urls, name, forceHttps, ipOf, fetch).Success?
    ensures var once := AddUrl(urls, name, forceHttps, ipOf, fetch).value;
            AddUrl(once.urls, name, forceHttps, ipOf, fetch) == Success(once)
  {
    var once := AddUrl(urls, name, forceHttps, ipOf, fetch).value;
    var added := Resolve(name, forceHttps, ipOf, fetch).value;
    assert once.urls + added.urls == once.urls;
  }


  /** A direct release link that is already a well-formed `https` URL on a
      Bandcamp host is added verbatim. */
  lemma ReleaseUrlKept(urls: set<string>, u: Url, forceHttps: bool,
                       ipOf: string -> string, fetch: string -> ArtistPage)
    requires WellFormed(u) && u.scheme == "https"
    requires IsBandcampHost(u.netloc) && !IsArtistRootPath(u.path)
    ensures AddUrl(urls, Unsplit(u), forceHttps, ipOf, fetch) == Success(Added(urls + {Unsplit(u)}, None))
  {
    var name := Unsplit(u);
    ParseUnsplit(u);
    UnsplitColon(u);
    ColonNotSubdomain(name, |u.scheme|);
    assert Canonical(name, forceHttps) == u;
  }
}
