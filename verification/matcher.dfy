/** `BandcampMetadataWriter._find_matching_track` and `_fuzzy_match`: which
    of the album's tracks an audio file is, decided from the file's stem by
    its first number, then by a fuzzy comparison with the track titles, and
    finally by the album having a single track. */
module Matcher {
  import opened Wrappers
  import opened Strings
  import opened Extractor

  /** The class `[_\-\s]` of the normalising substitution. */
  predicate IsSeparator(c: char) {
    c == '_' || c == '-' || IsSpace(c)
  }

  /** The number of separators at the front of `s`. */
  function SeparatorRun(s: string): (n: nat)
    ensures n <= |s|
    ensures forall i :: 0 <= i < n ==> IsSeparator(s[i])
    ensures n < |s| ==> !IsSeparator(s[n])
  {
    if |s| == 0 || !IsSeparator(s[0]) then 0 else 1 + SeparatorRun(s[1..])
  }

  /** Only single spaces separate the other characters. */
  predicate Collapsed(t: string) {
    && (forall i :: 0 <= i < |t| ==> t[i] == ' ' || !IsSeparator(t[i]))
    && (forall i :: 0 <= i < |t| - 1 && t[i] == ' ' ==> t[i + 1] != ' ')
  }

  /** `re.sub(r"[_\-\s]+", " ", s)`: every maximal run of separators
      becomes one space. */
  function Collapse(s: string): (r: string)
    ensures |r| == 0 <==> |s| == 0
    ensures |s| > 0 ==> r[0] == if IsSeparator(s[0]) then ' ' else s[0]
    ensures Collapsed(r)
    ensures NonSeparators(r) == NonSeparators(s)
    decreases |s|
  {
    if |s| == 0 then ""
    else if IsSeparator(s[0]) then
      var rest := Collapse(s[SeparatorRun(s)..]);
      var r := " " + rest;
      assert forall i :: 0 <= i < |rest| ==> r[i + 1] == rest[i];
      assert r[1..] == rest;
      NonSeparatorsSkipRun(s);
      r
    else
      var rest := Collapse(s[1..]);
      var r := [s[0]] + rest;
      assert forall i :: 0 <= i < |rest| ==> r[i + 1] == rest[i];
      assert r[1..] == rest;
      r
  }

  /** The characters of `s` other than separators, in order. */
  function NonSeparators(s: string): (r: string)
    ensures forall i :: 0 <= i < |r| ==> !IsSeparator(r[i])
  {
    if |s| == 0 then ""
    else (if IsSeparator(s[0]) then "" else [s[0]]) + NonSeparators(s[1..])
  }

  /** A leading run of separators holds no other character. */
  lemma {:induction false} NonSeparatorsSkipRun(s: string)
    ensures NonSeparators(s[SeparatorRun(s)..]) == NonSeparators(s)
    decreases |s|
  {
    if |s| > 0 && IsSeparator(s[0]) {
      assert s[1..][SeparatorRun(s[1..])..] == s[SeparatorRun(s)..];
      NonSeparatorsSkipRun(s[1..]);
    }
  }

  lemma {:induction false} NonSeparatorsAppend(a: string, b: string)
    ensures NonSeparators(a + b) == NonSeparators(a) + NonSeparators(b)
    decreases |a|
  {
    if |a| == 0 {
      assert a + b == b;
    } else {
      assert (a + b)[1..] == a[1..] + b;
      NonSeparatorsAppend(a[1..], b);
    }
  }

  lemma {:induction false} NonSeparatorsOfSpaces(s: string)
    requires forall i :: 0 <= i < |s| ==> IsSpace(s[i])
    ensures NonSeparators(s) == ""
    decreases |s|
  {
    if |s| > 0 {
      NonSeparatorsOfSpaces(s[1..]);
    }
  }

  /** `str.strip()` removes white space only, which is no content. */
  lemma NonSeparatorsTrim(c: string)
    ensures NonSeparators(Trim(c, Whitespace)) == NonSeparators(c)
  {
    var l := TrimLeft(c, Whitespace);
    NonSeparatorsTrimLeft(c);
    NonSeparatorsTrimRight(l);
    assert TrimRight(l, Whitespace) == Trim(c, Whitespace);
  }

  lemma NonSeparatorsTrimLeft(c: string)
    ensures NonSeparators(TrimLeft(c, Whitespace)) == NonSeparators(c)
  {
    var l := TrimLeft(c, Whitespace);
    var k := |c| - |l|;
    assert c == c[..k] + l;
    NonSeparatorsOfSpaces(c[..k]);
    NonSeparatorsAppend(c[..k], l);
  }

  lemma NonSeparatorsTrimRight(l: string)
    ensures NonSeparators(TrimRight(l, Whitespace)) == NonSeparators(l)
  {
    var r := TrimRight(l, Whitespace);
    assert l == r + l[|r|..];
    NonSeparatorsOfSpaces(l[|r|..]);
    NonSeparatorsAppend(r, l[|r|..]);
  }

  /** Every separator written as a space. */
  function Spaced(s: string): (r: string)
    ensures |r| == |s|
    ensures forall i :: 0 <= i < |s| ==> r[i] == if IsSeparator(s[i]) then ' ' else s[i]
  {
    seq(|s|, i requires 0 <= i < |s| => if IsSeparator(s[i]) then ' ' else s[i])
  }

  /** Drops every space that directly follows another space. */
  function Squeeze(t: string): string
    decreases |t|
  {
    if |t| == 0 then ""
    else if |t| > 1 && t[0] == ' ' && t[1] == ' ' then Squeeze(t[1..])
    else [t[0]] + Squeeze(t[1..])
  }

  /** Collapsing is writing every separator as a space and then keeping
      one space of each run. */
  lemma {:induction false} CollapseIsSqueeze(s: string)
    ensures Collapse(s) == Squeeze(Spaced(s))
    decreases |s|
  {
    if |s| > 0 {
      assert Spaced(s)[1..] == Spaced(s[1..]);
      assert IsSeparator(' ');
      CollapseIsSqueeze(s[1..]);
      if IsSeparator(s[0]) && |s| > 1 && IsSeparator(s[1]) {
        assert s[1..][SeparatorRun(s[1..])..] == s[SeparatorRun(s)..];
      } else if IsSeparator(s[0]) {
        assert SeparatorRun(s) == 1;
      }
    }
  }

  /** A normalised string: collapsed, and neither starting nor ending with
      a space. */
  predicate Clean(t: string) {
    Collapsed(t) && (|t| > 0 ==> t[0] != ' ' && t[|t| - 1] != ' ')
  }

  /** A slice of a collapsed string is collapsed. */
  lemma CollapsedSlice(c: string, k: nat, m: nat)
    requires Collapsed(c) && k <= m <= |c|
    ensures Collapsed(c[k..m])
  {
    var r := c[k..m];
    assert forall i :: 0 <= i < |r| ==> r[i] == c[k + i];
  }

  /** Stripping a collapsed string leaves a clean one: the remaining
      slice is still collapsed, and its ends are not white space. */
  lemma TrimCollapsed(c: string)
    requires Collapsed(c)
    ensures Clean(Trim(c, Whitespace))
  {
    var r := Trim(c, Whitespace);
    var k := |c| - |TrimLeft(c, Whitespace)|;
    CollapsedSlice(c, k, k + |r|);
    assert IsSpace(' ');
  }

  /** The normalisation of `_fuzzy_match`: collapse, then `str.strip()`. */
  function Normalize(s: string): (r: string)
    ensures Clean(r)
    ensures NonSeparators(r) == NonSeparators(s)
  {
    var c := Collapse(s);
    TrimCollapsed(c);
    NonSeparatorsTrim(c);
    Trim(c, Whitespace)
  }

  /** A collapsed string is its own collapse. */
  lemma {:induction false} CollapseCollapsed(t: string)
    requires Collapsed(t)
    ensures Collapse(t) == t
    decreases |t|
  {
    if |t| > 0 {
      var tail := t[1..];
      assert Collapsed(tail) by {
        assert forall i :: 0 <= i < |tail| ==> tail[i] == t[i + 1];
      }
      CollapseCollapsed(tail);
      if IsSeparator(t[0]) {
        assert t[0] == ' ';
        assert SeparatorRun(t) == 1 by {
          if |t| > 1 {
            assert !IsSeparator(t[1]);
          }
        }
        assert t == " " + tail;
      } else {
        assert t == [t[0]] + tail;
      }
    }
  }

  /** A clean string has nothing for `str.strip()` to remove. */
  lemma TrimClean(t: string)
    requires Clean(t)
    ensures Trim(t, Whitespace) == t
  {
    assert TrimLeft(t, Whitespace) == t;
  }

  /** Normalising twice is normalising once. */
  lemma NormalizeIdempotent(s: string)
    ensures Normalize(Normalize(s)) == Normalize(s)
  {
    var t := Normalize(s);
    CollapseCollapsed(t);
    TrimClean(t);
  }

  /** The distinct words of a string (`set(s.split())`). */
  function WordSet(s: string): set<string> {
    set w | w in Words(s)
  }

  /** The word-overlap test: both word sets non-empty and the shared words
      at least 0.6 of all words, in integers. */
  predicate Overlaps(w1: set<string>, w2: set<string>) {
    w1 != {} && w2 != {} && 5 * |w1 * w2| >= 3 * |w1 + w2|
  }

  /** `overlap / total_words >= 0.6` over the rationals is the integer
      comparison `Overlaps` makes. */
  lemma OverlapRatio(overlap: nat, total: nat)
    requires total > 0
    ensures (overlap as real) / (total as real) >= 0.6 <==> 5 * overlap >= 3 * total
  {
    var o, t := overlap as real, total as real;
    DivAtLeast(o, t, 0.6);
  }

  lemma DivAtLeast(o: real, t: real, c: real)
    requires t > 0.0
    ensures o / t >= c <==> o >= c * t
  {
  }

  /** `_fuzzy_match`: after normalising both strings, one contains the
      other, or their words overlap enough. */
  function FuzzyMatch(a: string, b: string): (r: bool)
    ensures Normalize(a) == "" || Normalize(b) == "" ==> r
    ensures Normalize(a) == Normalize(b) ==> r
    ensures Contains(Normalize(a), Normalize(b)) || Contains(Normalize(b), Normalize(a)) ==> r
    ensures !Contains(Normalize(a), Normalize(b)) && !Contains(Normalize(b), Normalize(a)) ==>
              (r <==> Overlaps(WordSet(Normalize(a)), WordSet(Normalize(b))))
  {
    var x, y := Normalize(a), Normalize(b);
    ContainsTrivia(x);
    ContainsTrivia(y);
    Contains(y, x) || Contains(x, y) || Overlaps(WordSet(x), WordSet(y))
  }

  /** The comparison does not depend on the order of its arguments. */
  lemma FuzzyMatchSymmetric(a: string, b: string)
    ensures FuzzyMatch(a, b) == FuzzyMatch(b, a)
  {
    var x, y := Normalize(a), Normalize(b);
    assert FuzzyMatch(a, b) == (Contains(y, x) || Contains(x, y) || Overlaps(WordSet(x), WordSet(y)));
    assert FuzzyMatch(b, a) == (Contains(x, y) || Contains(y, x) || Overlaps(WordSet(y), WordSet(x)));
    OverlapsSymmetric(WordSet(x), WordSet(y));
  }

  lemma OverlapsSymmetric(w1: set<string>, w2: set<string>)
    ensures Overlaps(w1, w2) == Overlaps(w2, w1)
  {
    assert w1 * w2 == w2 * w1;
    assert w1 + w2 == w2 + w1;
  }

  /** Normalising an argument beforehand changes nothing. */
  lemma FuzzyMatchNormalized(a: string, b: string)
    ensures FuzzyMatch(Normalize(a), b) == FuzzyMatch(a, b)
  {
    NormalizeIdempotent(a);
  }

  /** The position of the first digit at or after `i`. */
  function FirstDigitFrom(s: string, i: nat): (r: Option<nat>)
    requires i <= |s|
    ensures r.None? <==> forall k :: i <= k < |s| ==> !IsDigit(s[k])
    ensures r.Some? ==> i <= r.value < |s| && IsDigit(s[r.value])
                        && forall k :: i <= k < r.value ==> !IsDigit(s[k])
    decreases |s| - i
  {
    if i == |s| then None
    else if IsDigit(s[i]) then Some(i)
    else FirstDigitFrom(s, i + 1)
  }

  /** The end of the run of digits starting at `i`. */
  function DigitsEnd(s: string, i: nat): (j: nat)
    requires i <= |s|
    ensures i <= j <= |s|
    ensures forall k :: i <= k < j ==> IsDigit(s[k])
    ensures j < |s| ==> !IsDigit(s[j])
    decreases |s| - i
  {
    if i < |s| && IsDigit(s[i]) then DigitsEnd(s, i + 1) else i
  }

  /** `int(re.search(r"(\d+)", s).group(1))`: the value of the leftmost
      run of digits, or `None` when `s` has no digit. */
  function FirstNumber(s: string): (r: Option<nat>)
    ensures r.None? <==> forall k :: 0 <= k < |s| ==> !IsDigit(s[k])
    ensures r.Some? ==> exists i: nat, j: nat :: LeftmostRun(s, i, j) && r.value == NumberValue(s[i..j])
  {
    match FirstDigitFrom(s, 0)
    case None => None
    case Some(i) =>
      var j := DigitsEnd(s, i);
      assert j > i;
      assert LeftmostRun(s, i, j);
      assert AllDigits(s[i..j]);
      Some(NumberValue(s[i..j]))
  }

  /** `s[i..j]` is the leftmost run of digits of `s`, taken whole. */
  predicate LeftmostRun(s: string, i: nat, j: nat) {
    && i < j <= |s|
    && (forall k :: 0 <= k < i ==> !IsDigit(s[k]))
    && (forall k :: i <= k < j ==> IsDigit(s[k]))
    && (j == |s| || !IsDigit(s[j]))
  }

  /** A string has at most one leftmost run of digits, so the value
      `FirstNumber` reports is determined. */
  lemma LeftmostRunUnique(s: string, i: nat, j: nat, i2: nat, j2: nat)
    requires LeftmostRun(s, i, j) && LeftmostRun(s, i2, j2)
    ensures i == i2 && j == j2
  {
    assert IsDigit(s[i]) && IsDigit(s[i2]);
    if j < |s| {
      assert !IsDigit(s[j]);
    }
    if j2 < |s| {
      assert !IsDigit(s[j2]);
    }
  }

  /** A stem that starts with a numeral followed by something other than
      a digit is numbered by that numeral; in particular the zero-padded
      track numbers of the downloaded files read back as themselves. */
  lemma FirstNumberOfNumeral(numeral: string, rest: string)
    requires |numeral| > 0 && AllDigits(numeral)
    requires rest == "" || !IsDigit(rest[0])
    ensures FirstNumber(numeral + rest) == Some(NumberValue(numeral))
  {
    var s := numeral + rest;
    assert FirstDigitFrom(s, 0) == Some(0);
    assert DigitsEnd(s, 0) == |numeral| by {
      assert forall k :: 0 <= k < |numeral| ==> IsDigit(s[k]);
      assert |numeral| < |s| ==> s[|numeral|] == rest[0];
    }
    assert s[0..|numeral|] == numeral;
  }

  /** The padded track number of a file name is its track number. */
  lemma PaddedNumberReadsBack(n: nat, rest: string)
    requires rest == "" || !IsDigit(rest[0])
    ensures FirstNumber(Pad2(n) + rest) == Some(n)
  {
    FirstNumberOfNumeral(Pad2(n), rest);
  }

  /** Lower-casing changes letters only, so the first number stays. */
  lemma {:induction false} LowerFirstDigit(s: string, i: nat)
    requires i <= |s|
    ensures FirstDigitFrom(Lower(s), i) == FirstDigitFrom(s, i)
    ensures DigitsEnd(Lower(s), i) == DigitsEnd(s, i)
    decreases |s| - i
  {
    if i < |s| {
      assert IsDigit(Lower(s)[i]) <==> IsDigit(s[i]);
      LowerFirstDigit(s, i + 1);
    }
  }

  lemma LowerFirstNumber(s: string)
    ensures FirstNumber(Lower(s)) == FirstNumber(s)
  {
    LowerFirstDigit(s, 0);
    match FirstDigitFrom(s, 0)
    case None =>
    case Some(i) =>
      var j := DigitsEnd(s, i);
      LowerFirstDigit(s, i);
      assert Lower(s)[i..j] == s[i..j];
  }

  /** The position of the first track at or after `i` with number `n`. */
  function NumberIndex(tracks: seq<Track>, n: nat, i: nat): (r: Option<nat>)
    requires i <= |tracks|
    ensures r.None? <==> forall k :: i <= k < |tracks| ==> tracks[k].number != n
    ensures r.Some? ==> i <= r.value < |tracks| && tracks[r.value].number == n
                        && forall k :: i <= k < r.value ==> tracks[k].number != n
    decreases |tracks| - i
  {
    if i == |tracks| then None
    else if tracks[i].number == n then Some(i)
    else NumberIndex(tracks, n, i + 1)
  }

  /** A track the lower-cased file stem matches by title: its lower-cased
      title is not empty and the two match fuzzily. */
  predicate TitleMatches(filename: string, t: Track) {
    Lower(t.title) != "" && FuzzyMatch(filename, Lower(t.title))
  }

  /** Which tracks match the file name by title. */
  function TitleFlags(filename: string, tracks: seq<Track>): (r: seq<bool>)
    ensures |r| == |tracks|
    ensures forall k :: 0 <= k < |tracks| ==> r[k] == TitleMatches(filename, tracks[k])
  {
    seq(|tracks|, k requires 0 <= k < |tracks| => TitleMatches(filename, tracks[k]))
  }

  /** The position of the first `true` at or after `i`. */
  function FirstTrue(flags: seq<bool>, i: nat): (r: Option<nat>)
    requires i <= |flags|
    ensures r.None? <==> forall k :: i <= k < |flags| ==> !flags[k]
    ensures r.Some? ==> i <= r.value < |flags| && flags[r.value]
                        && forall k :: i <= k < r.value ==> !flags[k]
    decreases |flags| - i
  {
    if i == |flags| then None
    else if flags[i] then Some(i)
    else FirstTrue(flags, i + 1)
  }

  /** The position of the first track whose title matches. */
  function TitleIndex(filename: string, tracks: seq<Track>): (r: Option<nat>)
    ensures r.None? <==> forall k :: 0 <= k < |tracks| ==> !TitleMatches(filename, tracks[k])
    ensures r.Some? ==> r.value < |tracks| && TitleMatches(filename, tracks[r.value])
                        && forall k :: 0 <= k < r.value ==> !TitleMatches(filename, tracks[k])
  {
    FirstTrue(TitleFlags(filename, tracks), 0)
  }

  /** The track matched by the number in the stem, if any. */
  function NumberMatch(stem: string, tracks: seq<Track>): (r: Option<nat>)
    ensures r.Some? ==> r.value < |tracks| && FirstNumber(stem) == Some(tracks[r.value].number)
    ensures r.None? <==> FirstNumber(stem).None? || forall k :: 0 <= k < |tracks| ==> tracks[k].number != FirstNumber(stem).value
  {
    LowerFirstNumber(stem);
    match FirstNumber(Lower(stem))
    case None => None
    case Some(n) => NumberIndex(tracks, n, 0)
  }

  /** `_find_matching_track`: the first track with the stem's number;
      failing that, the first whose title matches the lower-cased stem;
      failing that, the only track of a single-track album. */
  function FindMatchingTrack(stem: string, tracks: seq<Track>): (r: Option<Track>)
    ensures |tracks| == 0 ==> r.None?
    ensures r.Some? ==> r.value in tracks
    ensures NumberMatch(stem, tracks).Some? ==> r == Some(tracks[NumberMatch(stem, tracks).value])
    ensures NumberMatch(stem, tracks).None? && TitleIndex(Lower(stem), tracks).Some? ==>
              r == Some(tracks[TitleIndex(Lower(stem), tracks).value])
    ensures NumberMatch(stem, tracks).None? && TitleIndex(Lower(stem), tracks).None? ==>
              (r.Some? <==> |tracks| == 1)
  {
    if |tracks| == 0 then None
    else
      match NumberMatch(stem, tracks)
      case Some(k) => Some(tracks[k])
      case None =>
        match TitleIndex(Lower(stem), tracks)
        case Some(k) => Some(tracks[k])
        case None => if |tracks| == 1 then Some(tracks[0]) else None
  }

  /** Track numbers alone decide `NumberIndex`. */
  lemma {:induction false} NumberIndexByNumbers(tracks: seq<Track>, other: seq<Track>, n: nat, i: nat)
    requires |tracks| == |other| && i <= |tracks|
    requires forall k :: 0 <= k < |tracks| ==> tracks[k].number == other[k].number
    ensures NumberIndex(tracks, n, i) == NumberIndex(other, n, i)
    decreases |tracks| - i
  {
    if i < |tracks| {
      NumberIndexByNumbers(tracks, other, n, i + 1);
    }
  }

  /** A number match ignores the titles: retitling the tracks still picks
      the track at the same position. */
  lemma NumberMatchIgnoresTitles(stem: string, tracks: seq<Track>, other: seq<Track>)
    requires |tracks| == |other|
    requires forall k :: 0 <= k < |tracks| ==> tracks[k].number == other[k].number
    requires NumberMatch(stem, tracks).Some?
    ensures NumberMatch(stem, other) == NumberMatch(stem, tracks)
    ensures FindMatchingTrack(stem, other) == Some(other[NumberMatch(stem, tracks).value])
  {
    match FirstNumber(Lower(stem))
    case None =>
    case Some(n) => NumberIndexByNumbers(tracks, other, n, 0);
  }

  /** A file whose stem starts with a track's zero-padded number is that
      track, whatever the rest of the stem says, provided no earlier track
      has the same number. */
  lemma PaddedStemMatches(n: nat, rest: string, tracks: seq<Track>, k: nat)
    requires rest == "" || !IsDigit(rest[0])
    requires k < |tracks| && tracks[k].number == n
    requires forall j :: 0 <= j < k ==> tracks[j].number != n
    ensures FindMatchingTrack(Pad2(n) + rest, tracks) == Some(tracks[k])
  {
    PaddedNumberReadsBack(n, rest);
    assert NumberIndex(tracks, n, 0).Some?;
  }
}
