/** The release year of `BandcampMetadataExtractor._extract_release_year`:
    six sources tried in a fixed order, each yielding a four-digit year in
    [1950, 2030] or nothing. The page is given as the texts the HTML parser
    would hand over; the regular expressions are spelled out as character
    scans. */
module Years {
  import opened Wrappers
  import opened Strings

  const MinYear := 1950
  const MaxYear := 2030

  /** A year as the extractor returns it: four digits, within range. */
  predicate IsYearText(y: string) {
    |y| == 4 && AllDigits(y) && MinYear <= NumberValue(y) <= MaxYear
  }

  /** A candidate that passes the check every source applies. */
  predicate Accepted(c: Option<string>) {
    c.Some? && IsYearText(c.value)
  }

  /** No year, or an accepted one. */
  predicate YearOrNone(c: Option<string>) {
    c.None? || IsYearText(c.value)
  }

  /** The first accepted candidate, in order. */
  function FirstAccepted(cands: seq<Option<string>>): (r: Option<string>)
    ensures r.Some? ==> IsYearText(r.value)
    ensures r.None? <==> forall i :: 0 <= i < |cands| ==> !Accepted(cands[i])
    ensures r.Some? ==> exists i :: 0 <= i < |cands| && cands[i] == r && forall j :: 0 <= j < i ==> !Accepted(cands[j])
  {
    if |cands| == 0 then None
    else if Accepted(cands[0]) then cands[0]
    else
      var r := FirstAccepted(cands[1..]);
      assert forall i :: 1 <= i < |cands| ==> cands[i] == cands[1..][i - 1];
      r
  }

  /** The character classes the year patterns use. */
  datatype CharClass = Spaces | Letters | Digits

  predicate InClass(k: CharClass, c: char) {
    match k
    case Spaces => IsSpace(c)
    case Letters => IsAsciiLetter(c)
    case Digits => IsDigit(c)
  }

  /** The end of the run of class `k` that starts at `i`. */
  function Span(s: string, i: nat, k: CharClass): (j: nat)
    requires i <= |s|
    ensures i <= j <= |s|
    ensures forall m :: i <= m < j ==> InClass(k, s[m])
    ensures j < |s| ==> !InClass(k, s[j])
    decreases |s| - i
  {
    if i == |s| || !InClass(k, s[i]) then i else Span(s, i + 1, k)
  }

  /** Four digits start at `i`. */
  predicate FourDigitsAt(s: string, i: nat) {
    i + 4 <= |s| && AllDigits(s[i..i + 4])
  }

  /** The year a match of `released\s+[A-Za-z]+\s+\d{1,2},?\s+(\d{4})`
      (ignoring case) starting at `i` captures. The pattern leaves no
      choice: every run is taken whole, the day has one or two digits, and
      the comma is taken when present. */
  function ReleasedAt(s: string, i: nat): (r: Option<string>)
    requires i <= |s|
    ensures r.Some? ==> |r.value| == 4 && AllDigits(r.value)
  {
    if !(i + 8 <= |s| && Lower(s[i..i + 8]) == "released") then None
    else
      var k := Span(s, i + 8, Spaces);
      var l := Span(s, k, Letters);
      var m := Span(s, l, Spaces);
      var d := Span(s, m, Digits);
      var c := if d < |s| && s[d] == ',' then d + 1 else d;
      var e := Span(s, c, Spaces);
      if k > i + 8 && l > k && m > l && 1 <= d - m <= 2 && e > c && FourDigitsAt(s, e) then Some(s[e..e + 4])
      else None
  }

  /** The leftmost match of the `released` pattern at or after `i`. */
  function FirstRelease(s: string, i: nat): (r: Option<string>)
    requires i <= |s|
    ensures r.Some? ==> exists j: nat :: j <= |s| && NoReleaseBefore(s, i, j) && ReleasedAt(s, j) == r
    ensures r.None? ==> NoReleaseBefore(s, i, |s| + 1)
    decreases |s| - i
  {
    var here := ReleasedAt(s, i);
    if here.Some? then
      assert NoReleaseBefore(s, i, i);
      here
    else if i == |s| then
      assert NoReleaseBefore(s, i, |s| + 1);
      None
    else
      var r := FirstRelease(s, i + 1);
      NoReleaseExtend(s, i, r);
      r
  }

  /** No match of the `released` pattern starts in [i, j). */
  predicate NoReleaseBefore(s: string, i: nat, j: nat) {
    i <= j <= |s| + 1 && forall m :: i <= m < j && m <= |s| ==> ReleasedAt(s, m).None?
  }

  /** A position without a match extends the matchless stretch after it. */
  lemma NoReleaseExtend(s: string, i: nat, r: Option<string>)
    requires i < |s| && ReleasedAt(s, i).None?
    requires r.Some? ==> exists j: nat :: j <= |s| && NoReleaseBefore(s, i + 1, j) && ReleasedAt(s, j) == r
    requires r.None? ==> NoReleaseBefore(s, i + 1, |s| + 1)
    ensures r.Some? ==> exists j: nat :: j <= |s| && NoReleaseBefore(s, i, j) && ReleasedAt(s, j) == r
    ensures r.None? ==> NoReleaseBefore(s, i, |s| + 1)
  {
    if r.Some? {
      var j: nat :| j <= |s| && NoReleaseBefore(s, i + 1, j) && ReleasedAt(s, j) == r;
      assert NoReleaseBefore(s, i, j);
    }
  }

  /** Priority 1: the year of the first `released ...` date in the
      credits, if in range; a later date in the credits is not tried. */
  function CreditsYear(credits: Option<string>): (r: Option<string>)
    ensures r.Some? ==> IsYearText(r.value)
    ensures r.Some? ==> credits.Some? && FirstRelease(credits.value, 0) == r
    ensures credits.Some? && Accepted(FirstRelease(credits.value, 0)) ==> r == FirstRelease(credits.value, 0)
  {
    match credits
    case None => None
    case Some(text) =>
      var y := FirstRelease(text, 0);
      if Accepted(y) then y else None
  }

  /** The leftmost four digits at or after `i`: `re.search(r'(\d{4})')`. */
  function FourDigitsFrom(s: string, i: nat): (r: Option<string>)
    ensures r.Some? ==> exists j :: i <= j && FourDigitsAt(s, j) && r.value == s[j..j + 4] && forall m :: i <= m < j ==> !FourDigitsAt(s, m)
    ensures r.None? ==> forall j :: i <= j ==> !FourDigitsAt(s, j)
    decreases |s| - i
  {
    if i + 4 > |s| then None
    else if FourDigitsAt(s, i) then Some(s[i..i + 4])
    else FourDigitsFrom(s, i + 1)
  }

  function FirstFourDigits(s: string): Option<string> {
    FourDigitsFrom(s, 0)
  }

  /** Priority 2: the first `music:release_date` meta tag whose first four
      digits are an accepted year. */
  function MetaYear(contents: seq<string>): (r: Option<string>)
    ensures r.Some? ==> IsYearText(r.value)
    ensures r.None? <==> forall i :: 0 <= i < |contents| ==> !Accepted(FirstFourDigits(contents[i]))
    ensures r.Some? ==> exists i :: 0 <= i < |contents| && FirstFourDigits(contents[i]) == r
                                    && forall j :: 0 <= j < i ==> !Accepted(FirstFourDigits(contents[j]))
  {
    FirstAccepted(MetaCandidates(contents))
  }

  /** The candidate of each meta tag: its first four digits. */
  function MetaCandidates(contents: seq<string>): (r: seq<Option<string>>)
    ensures |r| == |contents|
    ensures forall i :: 0 <= i < |contents| ==> r[i] == FirstFourDigits(contents[i])
  {
    seq(|contents|, i requires 0 <= i < |contents| => FirstFourDigits(contents[i]))
  }

  /** The dates of the page's `pagedata` blob, `None` when absent or
      falsy. */
  datatype PageDates = PageDates(releaseDate: Option<string>, publishDate: Option<string>)

  /** A pagedata date is looked at only when present and non-empty. */
  function DateCandidate(date: Option<string>): Option<string> {
    if date.Some? && date.value != "" then FirstFourDigits(date.value) else None
  }

  /** Priority 3: the release date, then the publish date, of the pagedata
      blob (`None` when the blob is missing, empty or unreadable). */
  function PagedataYear(pagedata: Option<PageDates>): (r: Option<string>)
    ensures r.Some? ==> IsYearText(r.value)
    ensures pagedata.None? ==> r.None?
    ensures pagedata.Some? && Accepted(DateCandidate(pagedata.value.releaseDate)) ==>
              r == DateCandidate(pagedata.value.releaseDate)
    ensures pagedata.Some? && !Accepted(DateCandidate(pagedata.value.releaseDate)) ==>
              && (r.Some? <==> Accepted(DateCandidate(pagedata.value.publishDate)))
              && (r.Some? ==> r == DateCandidate(pagedata.value.publishDate))
  {
    match pagedata
    case None => None
    case Some(d) =>
      var cands := [DateCandidate(d.releaseDate), DateCandidate(d.publishDate)];
      assert cands[1..] == [cands[1]] && cands[1..][1..] == [];
      FirstAccepted(cands)
  }

  /** The first four characters (fewer when shorter): `[:4]`. */
  function Prefix4(s: string): (r: string)
    ensures |r| <= 4 && |r| <= |s| && r == s[..|r|]
    ensures |s| >= 4 ==> |r| == 4
  {
    if |s| <= 4 then s else s[..4]
  }

  /** Priority 4: the first JSON-LD `datePublished` string whose first four
      characters are an accepted year. */
  function LdYear(dates: seq<string>): (r: Option<string>)
    ensures r.Some? ==> IsYearText(r.value)
    ensures r.None? <==> forall i :: 0 <= i < |dates| ==> !IsYearText(Prefix4(dates[i]))
    ensures r.Some? ==> exists i :: 0 <= i < |dates| && r.value == Prefix4(dates[i])
                                    && forall j :: 0 <= j < i ==> !IsYearText(Prefix4(dates[j]))
  {
    FirstAccepted(LdCandidates(dates))
  }

  /** The candidate of each `datePublished`: its first four characters. */
  function LdCandidates(dates: seq<string>): (r: seq<Option<string>>)
    ensures |r| == |dates|
    ensures forall i :: 0 <= i < |dates| ==> r[i] == Some(Prefix4(dates[i]))
  {
    seq(|dates|, i requires 0 <= i < |dates| => Some(Prefix4(dates[i])))
  }

  /** A whole word of four digits at `i`: `\b\d\d\d\d\b`. */
  predicate TokenAt(s: string, i: nat) {
    && FourDigitsAt(s, i)
    && (i == 0 || !IsWordChar(s[i - 1]))
    && (i + 4 == |s| || !IsWordChar(s[i + 4]))
  }

  /** The values of the four-digit words at or after `i` within
      [lo, hi], in order. */
  function TokensFrom(s: string, i: nat, lo: int, hi: int): (r: seq<nat>)
    ensures forall x :: x in r ==> lo <= x <= hi && exists j :: i <= j && TokenAt(s, j) && NumberValue(s[j..j + 4]) == x
    ensures forall j :: i <= j && TokenAt(s, j) && lo <= NumberValue(s[j..j + 4]) <= hi ==> NumberValue(s[j..j + 4]) in r
    decreases |s| - i
  {
    if i + 4 > |s| then []
    else
      var rest := TokensFrom(s, i + 1, lo, hi);
      if TokenAt(s, i) && lo <= NumberValue(s[i..i + 4]) <= hi then [NumberValue(s[i..i + 4])] + rest else rest
  }

  /** The largest element. */
  function Max(xs: seq<nat>): (m: nat)
    requires |xs| > 0
    ensures m in xs && forall x :: x in xs ==> x <= m
  {
    if |xs| == 1 then xs[0]
    else
      var m := Max(xs[1..]);
      assert forall x :: x in xs ==> x == xs[0] || x in xs[1..];
      if xs[0] > m then xs[0] else m
  }

  /** Priority 5: the latest year written as a word of the page text,
      among 2000–2029, or among 1950–1999 when there is none of those. */
  function PageTextYear(text: string): (r: Option<string>)
    ensures r.Some? ==> IsYearText(r.value)
    ensures var recent := TokensFrom(text, 0, 2000, 2029);
            |recent| > 0 ==> r.Some? && NumberValue(r.value) in recent && forall y :: y in recent ==> y <= NumberValue(r.value)
    ensures var recent := TokensFrom(text, 0, 2000, 2029);
            var older := TokensFrom(text, 0, 1950, 1999);
            |recent| == 0 ==> (r.Some? <==> |older| > 0)
                              && (r.Some? ==> NumberValue(r.value) in older && forall y :: y in older ==> y <= NumberValue(r.value))
  {
    var recent := TokensFrom(text, 0, 2000, 2029);
    var older := TokensFrom(text, 0, 1950, 1999);
    if |recent| > 0 then
      var m := Max(recent);
      DecimalWidth4(m);
      DecimalValue(m);
      Some(Decimal(m))
    else if |older| > 0 then
      var m := Max(older);
      DecimalWidth4(m);
      DecimalValue(m);
      Some(Decimal(m))
    else None
  }

  /** The year of `©\s*(\d{4})` at `i`. */
  function SignAt(s: string, i: nat): (r: Option<string>)
    requires i < |s|
  {
    if s[i] as int != 0xA9 then None
    else
      var j := Span(s, i + 1, Spaces);
      if FourDigitsAt(s, j) then Some(s[j..j + 4]) else None
  }

  /** The year of `copyright\s+(\d{4})`, ignoring case, at `i`. */
  function WordAt(s: string, i: nat): (r: Option<string>)
    requires i < |s|
  {
    if !(i + 9 <= |s| && Lower(s[i..i + 9]) == "copyright") then None
    else
      var j := Span(s, i + 9, Spaces);
      if j > i + 9 && FourDigitsAt(s, j) then Some(s[j..j + 4]) else None
  }

  /** The copyright notations at or after `i`, in order: every match, as
      `re.findall` lists them (two matches of either pattern cannot
      overlap). */
  function SignsFrom(s: string, i: nat): (r: seq<Option<string>>)
    ensures forall k :: 0 <= k < |r| ==> r[k].Some?
    decreases |s| - i
  {
    if i >= |s| then []
    else (if SignAt(s, i).Some? then [SignAt(s, i)] else []) + SignsFrom(s, i + 1)
  }

  function WordsFrom(s: string, i: nat): (r: seq<Option<string>>)
    ensures forall k :: 0 <= k < |r| ==> r[k].Some?
    decreases |s| - i
  {
    if i >= |s| then []
    else (if WordAt(s, i).Some? then [WordAt(s, i)] else []) + WordsFrom(s, i + 1)
  }

  /** Priority 6: the first accepted `©` year, then the first accepted
      `copyright` year. */
  function CopyrightYear(text: string): (r: Option<string>)
    ensures r.Some? ==> IsYearText(r.value)
    ensures r.None? <==> (forall k :: 0 <= k < |SignsFrom(text, 0)| ==> !Accepted(SignsFrom(text, 0)[k]))
                         && (forall k :: 0 <= k < |WordsFrom(text, 0)| ==> !Accepted(WordsFrom(text, 0)[k]))
    ensures (exists k :: 0 <= k < |SignsFrom(text, 0)| && Accepted(SignsFrom(text, 0)[k])) ==> r in SignsFrom(text, 0)
    ensures AnyAccepted(SignsFrom(text, 0)) ==> r == FirstAccepted(SignsFrom(text, 0))
    ensures !AnyAccepted(SignsFrom(text, 0)) ==> r == FirstAccepted(WordsFrom(text, 0))
  {
    var signs, words := SignsFrom(text, 0), WordsFrom(text, 0);
    FirstAcceptedAppend(signs, words);
    NoneAccepted(signs);
    NoneAccepted(words);
    FirstAccepted(signs + words)
  }

  /** No candidate is accepted exactly when the search finds none. */
  lemma NoneAccepted(cands: seq<Option<string>>)
    ensures !AnyAccepted(cands) <==> FirstAccepted(cands).None?
    ensures !AnyAccepted(cands) <==> forall k :: 0 <= k < |cands| ==> !Accepted(cands[k])
  {
  }

  /** Some candidate is accepted. */
  predicate AnyAccepted(cands: seq<Option<string>>) {
    exists k :: 0 <= k < |cands| && Accepted(cands[k])
  }

  /** Searching two lists one after the other: the second is looked at
      only when the first holds no accepted candidate. */
  lemma {:induction false} FirstAcceptedAppend(a: seq<Option<string>>, b: seq<Option<string>>)
    ensures FirstAccepted(a + b) == if AnyAccepted(a) then FirstAccepted(a) else FirstAccepted(b)
  {
    if |a| == 0 {
      assert a + b == b;
      assert !AnyAccepted(a);
    } else {
      assert (a + b)[0] == a[0];
      if Accepted(a[0]) {
        assert AnyAccepted(a);
      } else {
        assert (a + b)[1..] == a[1..] + b;
        FirstAcceptedAppend(a[1..], b);
        assert AnyAccepted(a) <==> AnyAccepted(a[1..]) by {
          if AnyAccepted(a) {
            var k :| 0 <= k < |a| && Accepted(a[k]);
            assert a[1..][k - 1] == a[k];
          }
          if AnyAccepted(a[1..]) {
            var k :| 0 <= k < |a[1..]| && Accepted(a[1..][k]);
            assert a[k + 1] == a[1..][k];
          }
        }
      }
    }
  }

  /** What the page offers `_extract_release_year`: the credits text (if
      the section exists), the contents of the `music:release_date` meta
      tags, the pagedata dates, the JSON-LD `datePublished` strings and the
      raw page text. */
  datatype YearSources = YearSources(
    credits: Option<string>,
    metaReleaseDates: seq<string>,
    pagedata: Option<PageDates>,
    ldDatePublished: seq<string>,
    pageText: string)

  /** The year source of priority `k`, from most to least trusted. */
  function Level(p: YearSources, k: nat): (r: Option<string>)
    requires k < 6
    ensures YearOrNone(r)
  {
    match k
    case 0 => CreditsYear(p.credits)
    case 1 => MetaYear(p.metaReleaseDates)
    case 2 => PagedataYear(p.pagedata)
    case 3 => LdYear(p.ldDatePublished)
    case 4 => PageTextYear(p.pageText)
    case _ => CopyrightYear(p.pageText)
  }

  /** The six sources in priority order. */
  function Levels(p: YearSources): (r: seq<Option<string>>)
    ensures |r| == 6
    ensures forall k :: 0 <= k < 6 ==> YearOrNone(r[k])
  {
    seq(6, k requires 0 <= k < 6 => Level(p, k))
  }

  /** `_extract_release_year`: the year of the first source that yields
      one. */
  function ReleaseYear(p: YearSources): (r: Option<string>)
    ensures r.Some? ==> IsYearText(r.value)
    ensures r.None? <==> forall k :: 0 <= k < 6 ==> Level(p, k).None?
    ensures r.Some? ==> exists k :: 0 <= k < 6 && Level(p, k) == r && forall j :: 0 <= j < k ==> Level(p, j).None?
  {
    var levels := Levels(p);
    assert forall k :: 0 <= k < 6 ==> levels[k] == Level(p, k);
    FirstSome(levels)
  }

  /** An accepted year of an earlier source always wins: the first source
      that yields a year decides, whatever the later ones hold. */
  lemma ReleaseYearPriority(p: YearSources, k: nat)
    requires k < 6 && Level(p, k).Some?
    requires forall j :: 0 <= j < k ==> Level(p, j).None?
    ensures ReleaseYear(p) == Level(p, k)
  {
    var r := ReleaseYear(p);
    var m :| 0 <= m < 6 && Level(p, m) == r && forall j :: 0 <= j < m ==> Level(p, j).None?;
    assert m == k;
  }
}
