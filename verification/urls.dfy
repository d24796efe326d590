/** The URL record the pipeline works with, and the splitting and joining
    that Python's `urllib.parse.urlsplit` and `SplitResult.geturl` perform on
    it (the behaviour of Python 3.11's `urllib`, without the `;params` split
    of `urlparse` and without its IPv6 and Unicode host checks). */
module Urls {
  import opened Wrappers
  import opened Strings

  datatype Url = Url(scheme: string, netloc: string, path: string, query: string, fragment: string)

  /** Characters allowed in a scheme name. */
  predicate IsSchemeChar(c: char) {
    IsAsciiLetter(c) || IsDigit(c) || c == '+' || c == '-' || c == '.'
  }

  /** Tab, carriage return and line feed, removed anywhere in a URL. */
  predicate IsUnsafe(c: char) {
    c == '\t' || c == '\r' || c == '\n'
  }

  predicate NoUnsafe(s: string) {
    '\t' !in s && '\r' !in s && '\n' !in s
  }

  function RemoveUnsafe(s: string): (r: string)
    ensures NoUnsafe(r)
    ensures NoUnsafe(s) ==> r == s
  {
    if |s| == 0 then ""
    else if IsUnsafe(s[0]) then RemoveUnsafe(s[1..])
    else [s[0]] + RemoveUnsafe(s[1..])
  }

  /** The clean-up `urlsplit` applies before splitting. */
  function Scrub(s: string): string {
    RemoveUnsafe(TrimLeft(s, ControlOrSpace))
  }

  /** Splits at the first `c`: the text before it and the text after it. */
  function SplitOn(s: string, c: char): (r: (string, string))
    ensures c !in s ==> r == (s, "")
    ensures c in s ==> s == r.0 + [c] + r.1 && c !in r.0
  {
    match Find(s, c)
    case None => (s, "")
    case Some(i) =>
      assert s == s[..i] + [c] + s[i + 1..];
      (s[..i], s[i + 1..])
  }

  /** The first separator in a string is where it splits. */
  lemma SplitOnFirst(a: string, c: char, b: string)
    requires c !in a
    ensures SplitOn(a + [c] + b, c) == (a, b)
  {
    FindFirst(a, c, b);
    var s := a + [c] + b;
    assert s[..|a|] == a;
    assert s[|a| + 1..] == b;
  }

  lemma {:induction false} FindFirst(a: string, c: char, b: string)
    requires c !in a
    ensures Find(a + [c] + b, c) == Some(|a|)
  {
    if |a| == 0 {
      assert a + [c] + b == [c] + b;
    } else {
      assert (a + [c] + b)[1..] == a[1..] + [c] + b;
      FindFirst(a[1..], c, b);
    }
  }

  /** A leading `scheme:` when the text before the first colon is a scheme
      name starting with a letter; the scheme is lower-cased. */
  function SplitScheme(s: string): (string, string) {
    match Find(s, ':')
    case Some(i) =>
      if i > 0 && IsAsciiLetter(s[0]) && forall k :: 0 <= k < i ==> IsSchemeChar(s[k])
      then (Lower(s[..i]), s[i + 1..])
      else ("", s)
    case None => ("", s)
  }

  predicate IsNetlocEnd(c: char) {
    c == '/' || c == '?' || c == '#'
  }

  /** The position of the first `/`, `?` or `#` at or after `i`, or the end. */
  function NetlocEnd(s: string, i: nat): (e: nat)
    requires i <= |s|
    ensures i <= e <= |s|
    ensures forall k :: i <= k < e ==> !IsNetlocEnd(s[k])
    ensures e < |s| ==> IsNetlocEnd(s[e])
    decreases |s| - i
  {
    if i == |s| || IsNetlocEnd(s[i]) then i else NetlocEnd(s, i + 1)
  }

  /** A leading `//host` is the network location. */
  function SplitNetloc(s: string): (string, string) {
    if |s| >= 2 && s[..2] == "//" then
      var e := NetlocEnd(s, 2);
      (s[2..e], s[e..])
    else ("", s)
  }

  /** `urlsplit(s)` */
  function Parse(raw: string): Url {
    var s := Scrub(raw);
    var (scheme, afterScheme) := SplitScheme(s);
    var (netloc, afterNetloc) := SplitNetloc(afterScheme);
    var (beforeFragment, fragment) := SplitOn(afterNetloc, '#');
    var (path, query) := SplitOn(beforeFragment, '?');
    Url(scheme, netloc, path, query, fragment)
  }

  /** The schemes `urlunsplit` writes with a `//` even when the host is empty. */
  const UsesNetloc: set<string> := {
    "", "ftp", "http", "gopher", "nntp", "telnet", "imap", "wais", "file", "mms",
    "https", "shttp", "snews", "prospero", "rtsp", "rtsps", "rtspu", "rsync",
    "svn", "svn+ssh", "sftp", "nfs", "git", "git+ssh", "ws", "wss", "itms-services"
  }

  function QueryPart(u: Url): string {
    if u.query != "" then "?" + u.query else ""
  }

  function FragmentPart(u: Url): string {
    if u.fragment != "" then "#" + u.fragment else ""
  }

  /** `SplitResult.geturl()`, that is `urlunsplit`. */
  function Unsplit(u: Url): string {
    var authority :=
      if u.netloc != "" || (u.scheme != "" && u.scheme in UsesNetloc && !(|u.path| >= 2 && u.path[..2] == "//"))
      then
        var p := if u.path != "" && u.path[0] != '/' then "/" + u.path else u.path;
        "//" + u.netloc + p
      else u.path;
    (if u.scheme != "" then u.scheme + ":" + authority else authority) + QueryPart(u) + FragmentPart(u)
  }

  /** A URL that `urlsplit` can produce and that has a host: its parts hold
      none of the separators that delimit them. */
  predicate WellFormed(u: Url) {
    && (u.scheme == "" || IsSchemeName(u.scheme))
    && u.netloc != "" && (forall k :: 0 <= k < |u.netloc| ==> !IsNetlocEnd(u.netloc[k]))
    && (u.path == "" || u.path[0] == '/') && '?' !in u.path && '#' !in u.path
    && '#' !in u.query
    && NoUnsafe(u.scheme) && NoUnsafe(u.netloc) && NoUnsafe(u.path) && NoUnsafe(u.query) && NoUnsafe(u.fragment)
  }

  lemma LowerOfLowerCase(s: string)
    requires forall k :: 0 <= k < |s| ==> !('A' <= s[k] <= 'Z')
    ensures Lower(s) == s
  {
  }

  lemma SplitFragment(u: Url)
    requires WellFormed(u)
    ensures SplitOn(u.path + QueryPart(u) + FragmentPart(u), '#') == (u.path + QueryPart(u), u.fragment)
  {
    if u.fragment != "" {
      SplitOnFirst(u.path + QueryPart(u), '#', u.fragment);
      assert u.path + QueryPart(u) + FragmentPart(u) == (u.path + QueryPart(u)) + ['#'] + u.fragment;
    } else {
      assert u.path + QueryPart(u) + FragmentPart(u) == u.path + QueryPart(u);
    }
  }

  lemma SplitQuery(u: Url)
    requires WellFormed(u)
    ensures SplitOn(u.path + QueryPart(u), '?') == (u.path, u.query)
  {
    if u.query != "" {
      SplitOnFirst(u.path, '?', u.query);
      assert u.path + QueryPart(u) == u.path + ['?'] + u.query;
    } else {
      assert u.path + QueryPart(u) == u.path;
    }
  }

  lemma {:induction false} NetlocEndAt(s: string, i: nat, e: nat)
    requires i <= e <= |s|
    requires forall k :: i <= k < e ==> !IsNetlocEnd(s[k])
    requires e == |s| || IsNetlocEnd(s[e])
    ensures NetlocEnd(s, i) == e
    decreases e - i
  {
    if i < e {
      NetlocEndAt(s, i + 1, e);
    }
  }

  /** A lower-case scheme name followed by a colon is split off unchanged. */
  lemma SchemeSplit(scheme: string, rest: string)
    requires scheme != "" && IsAsciiLetter(scheme[0])
    requires forall k :: 0 <= k < |scheme| ==> IsSchemeChar(scheme[k]) && !('A' <= scheme[k] <= 'Z')
    ensures SplitScheme(scheme + ":" + rest) == (scheme, rest)
  {
    var s := scheme + ":" + rest;
    assert ':' !in scheme;
    assert s == scheme + [':'] + rest;
    FindFirst(scheme, ':', rest);
    assert s[..|scheme|] == scheme;
    assert s[|scheme| + 1..] == rest;
    LowerOfLowerCase(scheme);
  }

  lemma ScrubClean(s: string)
    requires |s| > 0 && !Strips(ControlOrSpace, s[0]) && NoUnsafe(s)
    ensures Scrub(s) == s
  {
  }

  lemma NetlocSplit(netloc: string, tail: string)
    requires forall k :: 0 <= k < |netloc| ==> !IsNetlocEnd(netloc[k])
    requires tail != "" ==> IsNetlocEnd(tail[0])
    ensures SplitNetloc("//" + netloc + tail) == (netloc, tail)
  {
    var rest := "//" + netloc + tail;
    assert rest[..2] == "//";
    assert rest[2..2 + |netloc|] == netloc;
    assert rest[2 + |netloc|..] == tail;
    NetlocEndAt(rest, 2, 2 + |netloc|);
  }

  lemma NoUnsafeJoin(a: string, b: string)
    requires NoUnsafe(a) && NoUnsafe(b)
    ensures NoUnsafe(a + b)
  {
    assert forall c :: c in a + b ==> c in a || c in b;
  }

  lemma UnsplitSafe(u: Url, tail: string, rest: string)
    requires WellFormed(u)
    requires tail == u.path + QueryPart(u) + FragmentPart(u) && rest == "//" + u.netloc + tail
    ensures NoUnsafe(rest) && NoUnsafe(u.scheme + ":" + rest)
  {
    NoUnsafeJoin("?", u.query);
    NoUnsafeJoin("#", u.fragment);
    NoUnsafeJoin(u.path, QueryPart(u));
    NoUnsafeJoin(u.path + QueryPart(u), FragmentPart(u));
    NoUnsafeJoin("//", u.netloc);
    NoUnsafeJoin("//" + u.netloc, tail);
    NoUnsafeJoin(u.scheme, ":");
    NoUnsafeJoin(u.scheme + ":", rest);
  }

  /** Joining a well-formed URL and splitting it again gives it back. */
  lemma ParseUnsplit(u: Url)
    requires WellFormed(u)
    ensures Parse(Unsplit(u)) == u
  {
    var tail := u.path + QueryPart(u) + FragmentPart(u);
    var rest := "//" + u.netloc + tail;
    var s := Unsplit(u);
    UnsplitScheme(u, tail, rest);
    assert tail != "" ==> IsNetlocEnd(tail[0]);
    NetlocSplit(u.netloc, tail);
    SplitFragment(u);
    SplitQuery(u);
    ParseOf(s, u.scheme, rest, u.netloc, tail, u.path + QueryPart(u), u.fragment, u.path, u.query);
  }

  /** `urlsplit` in steps: the scheme, the host, the fragment, the query. */
  lemma ParseOf(raw: string, scheme: string, afterScheme: string, netloc: string, afterNetloc: string,
                beforeFragment: string, fragment: string, path: string, query: string)
    requires SplitScheme(Scrub(raw)) == (scheme, afterScheme)
    requires SplitNetloc(afterScheme) == (netloc, afterNetloc)
    requires SplitOn(afterNetloc, '#') == (beforeFragment, fragment)
    requires SplitOn(beforeFragment, '?') == (path, query)
    ensures Parse(raw) == Url(scheme, netloc, path, query, fragment)
  {
  }

  /** A joined well-formed URL needs no clean-up, and its scheme splits off
      first. */
  lemma UnsplitScheme(u: Url, tail: string, rest: string)
    requires WellFormed(u)
    requires tail == u.path + QueryPart(u) + FragmentPart(u) && rest == "//" + u.netloc + tail
    ensures SplitScheme(Scrub(Unsplit(u))) == (u.scheme, rest)
  {
    UnsplitShape(u, tail, rest);
    UnsplitSafe(u, tail, rest);
    if u.scheme != "" {
      ScrubSchemeSplit(u.scheme, rest);
    } else {
      RestHasNoScheme(rest);
      ScrubClean(rest);
    }
  }

  /** A URL with a host is joined as its scheme, `//`, the host and the
      rest. */
  lemma UnsplitShape(u: Url, tail: string, rest: string)
    requires WellFormed(u)
    requires tail == u.path + QueryPart(u) + FragmentPart(u) && rest == "//" + u.netloc + tail
    ensures Unsplit(u) == if u.scheme != "" then u.scheme + ":" + rest else rest
  {
    var authority := "//" + u.netloc + u.path;
    assert (if u.path != "" && u.path[0] != '/' then "/" + u.path else u.path) == u.path;
    var prefix := if u.scheme != "" then u.scheme + ":" else "";
    assert Unsplit(u) == prefix + authority + QueryPart(u) + FragmentPart(u);
    Regroup(prefix, "//" + u.netloc, u.path, QueryPart(u), FragmentPart(u));
  }

  lemma Regroup(a: string, b: string, c: string, d: string, e: string)
    ensures a + (b + c) + d + e == a + (b + (c + d + e))
  {
  }

  /** A clean text starting with a scheme name and a colon splits there. */
  lemma ScrubSchemeSplit(scheme: string, rest: string)
    requires IsSchemeName(scheme) && NoUnsafe(scheme + ":" + rest)
    ensures SplitScheme(Scrub(scheme + ":" + rest)) == (scheme, rest)
  {
    var s := scheme + ":" + rest;
    assert s[0] == scheme[0];
    ScrubClean(s);
    SchemeSplit(scheme, rest);
  }

  /** A text starting with `/` has no scheme. */
  lemma RestHasNoScheme(rest: string)
    requires |rest| > 0 && rest[0] == '/'
    ensures SplitScheme(rest) == ("", rest)
  {
  }

  /** A slice of a text without tab, carriage return or line feed has none
      either. */
  lemma NoUnsafeSlice(s: string, i: nat, j: nat)
    requires NoUnsafe(s) && i <= j <= |s|
    ensures NoUnsafe(s[i..j])
  {
    assert forall c :: c in s[i..j] ==> c in s;
  }

  /** A lower-case scheme name, as `urlsplit` returns it. */
  predicate IsSchemeName(scheme: string) {
    scheme != "" && IsAsciiLetter(scheme[0])
    && forall k :: 0 <= k < |scheme| ==> IsSchemeChar(scheme[k]) && !('A' <= scheme[k] <= 'Z')
  }

  /** A scheme name holds no tab or line break. */
  lemma SchemeNameSafe(scheme: string)
    requires IsSchemeName(scheme)
    ensures NoUnsafe(scheme)
  {
    forall c | c in scheme
      ensures c != '\t' && c != '\r' && c != '\n'
    {
      var k :| 0 <= k < |scheme| && scheme[k] == c;
      assert IsSchemeChar(scheme[k]);
    }
  }

  /** The parts `urlsplit` returns hold none of the separators that end
      them, and no tab or line break: the host has no `/`, `?` or `#`, the
      path no `?` or `#`, and the scheme is empty or a lower-case name. */
  lemma ParseParts(raw: string)
    ensures var u := Parse(raw);
            && (u.scheme == "" || IsSchemeName(u.scheme))
            && (forall k :: 0 <= k < |u.netloc| ==> !IsNetlocEnd(u.netloc[k]))
            && '?' !in u.path && '#' !in u.path
            && NoUnsafe(u.netloc) && NoUnsafe(u.path)
  {
    var s := Scrub(raw);
    var (scheme, afterScheme) := SplitScheme(s);
    SchemeParts(s);
    var (netloc, afterNetloc) := SplitNetloc(afterScheme);
    NetlocParts(afterScheme);
    var (beforeFragment, fragment) := SplitOn(afterNetloc, '#');
    var (path, query) := SplitOn(beforeFragment, '?');
    PathParts(afterNetloc);
    ParseOf(raw, scheme, afterScheme, netloc, afterNetloc, beforeFragment, fragment, path, query);
  }

  /** The path `urlsplit` cuts from what follows the host holds no `?`,
      `#`, tab or line break. */
  lemma PathParts(afterNetloc: string)
    requires NoUnsafe(afterNetloc)
    ensures var path := SplitOn(SplitOn(afterNetloc, '#').0, '?').0;
            '?' !in path && '#' !in path && NoUnsafe(path)
  {
    var beforeFragment := SplitOn(afterNetloc, '#').0;
    var path := SplitOn(beforeFragment, '?').0;
    assert beforeFragment == afterNetloc[..|beforeFragment|];
    assert path == beforeFragment[..|path|];
    NoUnsafeSlice(afterNetloc, 0, |beforeFragment|);
    NoUnsafeSlice(beforeFragment, 0, |path|);
    assert forall c :: c in path ==> c in beforeFragment;
  }

  lemma SchemeParts(s: string)
    requires NoUnsafe(s)
    ensures var (scheme, rest) := SplitScheme(s);
            (scheme == "" || IsSchemeName(scheme)) && NoUnsafe(rest)
  {
    match Find(s, ':')
    case None =>
    case Some(i) =>
      if i > 0 && IsAsciiLetter(s[0]) && forall k :: 0 <= k < i ==> IsSchemeChar(s[k]) {
        var scheme := Lower(s[..i]);
        assert forall k :: 0 <= k < |scheme| ==> scheme[k] == LowerChar(s[k]);
        NoUnsafeSlice(s, i + 1, |s|);
      }
  }

  lemma NetlocParts(s: string)
    requires NoUnsafe(s)
    ensures var (netloc, rest) := SplitNetloc(s);
            && (forall k :: 0 <= k < |netloc| ==> !IsNetlocEnd(netloc[k]))
            && NoUnsafe(netloc) && NoUnsafe(rest)
  {
    if |s| >= 2 && s[..2] == "//" {
      var e := NetlocEnd(s, 2);
      NoUnsafeSlice(s, 2, e);
      NoUnsafeSlice(s, e, |s|);
    }
  }

  /** Prefixing `https://` always yields the `https` scheme. */
  lemma HttpsPrefixScheme(name: string)
    ensures Parse("https://" + name).scheme == "https"
  {
    var rest := "//" + RemoveUnsafe(name);
    ScrubHttps(name);
    assert "https://" + RemoveUnsafe(name) == "https" + ":" + rest;
    SchemeSplit("https", rest);
    ParseScheme("https://" + name);
  }

  lemma ParseScheme(raw: string)
    ensures Parse(raw).scheme == SplitScheme(Scrub(raw)).0
  {
  }

  lemma ScrubHttps(name: string)
    ensures Scrub("https://" + name) == "https://" + RemoveUnsafe(name)
  {
    var s := "https://" + name;
    assert s[0] == 'h';
    assert TrimLeft(s, ControlOrSpace) == s;
    assert NoUnsafe("https://");
    RemoveUnsafeAppend("https://", name);
  }

  lemma RemoveUnsafeAppend(a: string, b: string)
    ensures RemoveUnsafe(a + b) == RemoveUnsafe(a) + RemoveUnsafe(b)
  {
    if |a| > 0 {
      assert (a + b)[1..] == a[1..] + b;
      RemoveUnsafeAppend(a[1..], b);
    } else {
      assert a + b == b;
    }
  }
}
