/** Character classes and string operations the pipeline relies on: the
    parts of Python's `str` methods and regular-expression classes that the
    modelled code uses. Letters, digits and case are ASCII here; Python's are
    Unicode (see README, "Left out"). */
module Strings {
  import opened Wrappers

  predicate IsDigit(c: char) {
    '0' <= c <= '9'
  }

  predicate IsAsciiLetter(c: char) {
    'a' <= c <= 'z' || 'A' <= c <= 'Z'
  }

  /** The regular-expression class `\w`: letters, digits and underscore. */
  predicate IsWordChar(c: char) {
    IsAsciiLetter(c) || IsDigit(c) || c == '_'
  }

  /** The characters `str.isspace` accepts; these are what `str.strip()`,
      `str.split()` and the regular-expression class `\s` treat as white space. */
  predicate IsSpace(c: char) {
    var n := c as int;
    n == 0x20 || 0x09 <= n <= 0x0D || 0x1C <= n <= 0x1F || n == 0x85 || n == 0xA0
    || n == 0x1680 || 0x2000 <= n <= 0x200A || n == 0x2028 || n == 0x2029
    || n == 0x202F || n == 0x205F || n == 0x3000
  }

  function LowerChar(c: char): char {
    if 'A' <= c <= 'Z' then (c as int + 32) as char else c
  }

  /** `str.lower()` */
  function Lower(s: string): (r: string)
    ensures |r| == |s|
    ensures forall i :: 0 <= i < |s| ==> r[i] == LowerChar(s[i])
  {
    seq(|s|, i requires 0 <= i < |s| => LowerChar(s[i]))
  }

  lemma LowerSlice(s: string, i: int, j: int)
    requires 0 <= i <= j <= |s|
    ensures Lower(s[i..j]) == Lower(s)[i..j]
  {
  }

  lemma LowerAppend(a: string, b: string)
    ensures Lower(a + b) == Lower(a) + Lower(b)
  {
  }

  /** `str.replace(a, b)` for a single character `a`. */
  function ReplaceChar(s: string, a: char, b: char): (r: string)
    ensures |r| == |s|
    ensures forall i :: 0 <= i < |s| ==> r[i] == if s[i] == a then b else s[i]
  {
    seq(|s|, i requires 0 <= i < |s| => if s[i] == a then b else s[i])
  }

  /** After replacing `a` by a different character, no `a` is left. */
  lemma ReplaceCharRemoves(s: string, a: char, b: char)
    requires a != b
    ensures a !in ReplaceChar(s, a, b)
  {
  }

  /** Replacing a character that does not occur changes nothing. */
  lemma ReplaceCharAppend(x: string, y: string, a: char, b: char)
    ensures ReplaceChar(x + y, a, b) == ReplaceChar(x, a, b) + ReplaceChar(y, a, b)
  {
  }

  lemma ReplaceCharAbsent(s: string, a: char, b: char)
    requires a !in s
    ensures ReplaceChar(s, a, b) == s
  {
  }

  /** The character sets the pipeline strips: `"/ "`, the whitespace of
      `str.strip()`, and the C0 controls and space `urlsplit` drops. */
  datatype Strip = SlashOrSpace | Whitespace | ControlOrSpace

  predicate Strips(k: Strip, c: char) {
    match k
    case SlashOrSpace => c == '/' || c == ' '
    case Whitespace => IsSpace(c)
    case ControlOrSpace => c as int <= 0x20
  }

  /** `str.lstrip(chars)`: drops the leading characters of the set `p`. */
  function TrimLeft(s: string, p: Strip): (r: string)
    ensures |r| <= |s| && r == s[|s| - |r|..]
    ensures forall i :: 0 <= i < |s| - |r| ==> Strips(p, s[i])
    ensures |r| > 0 ==> !Strips(p, r[0])
    decreases |s|
  {
    if |s| > 0 && Strips(p, s[0]) then TrimLeft(s[1..], p) else s
  }

  /** `str.rstrip(chars)`: drops the trailing characters that satisfy `p`. */
  function TrimRight(s: string, p: Strip): (r: string)
    ensures |r| <= |s| && r == s[..|r|]
    ensures forall i :: |r| <= i < |s| ==> Strips(p, s[i])
    ensures |r| > 0 ==> !Strips(p, r[|r| - 1])
    decreases |s|
  {
    if |s| > 0 && Strips(p, s[|s| - 1]) then TrimRight(s[..|s| - 1], p) else s
  }

  /** `str.strip(chars)`: the slice of `s` that remains once the leading
      and trailing characters of the set `p` are dropped. */
  function Trim(s: string, p: Strip): (r: string)
    ensures |r| <= |s|
    ensures |r| > 0 ==> !Strips(p, r[0]) && !Strips(p, r[|r| - 1])
    ensures var k := |s| - |TrimLeft(s, p)|; k + |r| <= |s| && r == s[k..k + |r|]
  {
    var l := TrimLeft(s, p);
    var r := TrimRight(l, p);
    assert |r| > 0 ==> r[0] == l[0];
    PrefixOfSuffix(s, l, r);
    r
  }

  /** A prefix `r` of a suffix `l` of `s` is a slice of `s`. */
  lemma PrefixOfSuffix<T>(s: seq<T>, l: seq<T>, r: seq<T>)
    requires |l| <= |s| && l == s[|s| - |l|..]
    requires |r| <= |l| && r == l[..|r|]
    ensures var k := |s| - |l|; r == s[k..k + |r|]
  {
  }

  /** `str.strip()` with no argument. */
  function StripSpace(s: string): string {
    Trim(s, Whitespace)
  }

  /** The longest prefix of `t` holding no white space. */
  function TakeWord(t: string): (w: string)
    ensures |w| <= |t| && w == t[..|w|]
    ensures forall k :: 0 <= k < |w| ==> !IsSpace(w[k])
    ensures |w| < |t| ==> IsSpace(t[|w|])
    ensures |t| > 0 && !IsSpace(t[0]) ==> |w| > 0
  {
    if |t| == 0 || IsSpace(t[0]) then "" else [t[0]] + TakeWord(t[1..])
  }

  /** `str.split()` with no argument: the maximal runs of characters that
      are not white space, in order. */
  function Words(s: string): (r: seq<string>)
    ensures "" !in r
    decreases |s|
  {
    var t := TrimLeft(s, Whitespace);
    if |t| == 0 then []
    else
      var w := TakeWord(t);
      [w] + Words(t[|w|..])
  }

  /** A string of white space alone has no words; a word alone is its only
      word. */
  lemma WordsOfWord(w: string)
    requires |w| > 0 && forall k :: 0 <= k < |w| ==> !IsSpace(w[k])
    ensures Words(w) == [w]
  {
    assert !Strips(Whitespace, w[0]);
    assert TrimLeft(w, Whitespace) == w;
    TakeWordAll(w);
    assert w[|w|..] == "";
    assert Words("") == [];
    assert Words(w) == [w] + Words(w[|w|..]);
  }

  lemma {:induction false} TakeWordAll(w: string)
    requires forall k :: 0 <= k < |w| ==> !IsSpace(w[k])
    ensures TakeWord(w) == w
  {
    if |w| > 0 {
      TakeWordAll(w[1..]);
      assert w == [w[0]] + w[1..];
    }
  }

  /** `str.find(c)`: the first position of `c`. */
  function Find(s: string, c: char): (r: Option<nat>)
    ensures r.None? <==> c !in s
    ensures r.Some? ==> r.value < |s| && s[r.value] == c && c !in s[..r.value]
  {
    if |s| == 0 then None
    else if s[0] == c then Some(0)
    else
      match Find(s[1..], c)
      case None => None
      case Some(i) =>
        assert s[..i + 1] == [s[0]] + s[1..][..i];
        Some(i + 1)
  }

  /** `str.rfind(c)`: the last position of `c`. */
  function FindLast(s: string, c: char): (r: Option<nat>)
    ensures r.None? <==> c !in s
    ensures r.Some? ==> r.value < |s| && s[r.value] == c && c !in s[r.value + 1..]
    decreases |s|
  {
    if |s| == 0 then None
    else if s[|s| - 1] == c then Some(|s| - 1)
    else
      var r := FindLast(s[..|s| - 1], c);
      assert r.Some? ==> s[r.value + 1..] == s[..|s| - 1][r.value + 1..] + [s[|s| - 1]];
      assert r.None? ==> s == s[..|s| - 1] + [s[|s| - 1]];
      r
  }

  /** The last occurrence is the one with none after it. */
  lemma {:induction false} FindLastAt(s: string, c: char, i: nat)
    requires i < |s| && s[i] == c && c !in s[i + 1..]
    ensures FindLast(s, c) == Some(i)
    decreases |s|
  {
    if i < |s| - 1 {
      assert s[|s| - 1] in s[i + 1..];
      var t := s[..|s| - 1];
      assert t[i + 1..] == s[i + 1..|s| - 1];
      FindLastAt(t, c, i);
    }
  }

  /** `needle` occurs in `hay` starting at position `i`. */
  predicate OccursAt(hay: string, needle: string, i: int) {
    0 <= i && i + |needle| <= |hay| && hay[i..i + |needle|] == needle
  }

  /** Python's `needle in hay` on strings. */
  predicate Contains(hay: string, needle: string) {
    ContainsFrom(hay, needle, 0)
  }

  predicate ContainsFrom(hay: string, needle: string, i: nat)
    decreases |hay| - i
  {
    i + |needle| <= |hay| && (hay[i..i + |needle|] == needle || ContainsFrom(hay, needle, i + 1))
  }

  lemma ContainsFromMeaning(hay: string, needle: string, i: nat)
    ensures ContainsFrom(hay, needle, i) <==> exists j :: i <= j && OccursAt(hay, needle, j)
    decreases |hay| - i
  {
    if i + |needle| > |hay| {
      forall j | i <= j
        ensures !OccursAt(hay, needle, j)
      {
      }
    } else {
      ContainsFromMeaning(hay, needle, i + 1);
      if hay[i..i + |needle|] == needle {
        assert OccursAt(hay, needle, i);
      } else {
        forall j | i <= j && OccursAt(hay, needle, j)
          ensures i + 1 <= j
        {
        }
      }
    }
  }

  /** `Contains` is the substring relation. */
  lemma ContainsMeaning(hay: string, needle: string)
    ensures Contains(hay, needle) <==> exists j :: OccursAt(hay, needle, j)
  {
    ContainsFromMeaning(hay, needle, 0);
    assert forall j :: OccursAt(hay, needle, j) ==> 0 <= j;
  }

  /** The empty string occurs in every string, and every string in itself. */
  lemma ContainsTrivia(s: string)
    ensures Contains(s, "") && Contains(s, s)
  {
    assert OccursAt(s, "", 0);
    assert OccursAt(s, s, 0);
    ContainsMeaning(s, "");
    ContainsMeaning(s, s);
  }

  /** `re.sub(r"\D", "", s)`: the digits of `s`, in order. */
  function DigitsOf(s: string): (r: string)
    ensures |r| <= |s|
    ensures forall i :: 0 <= i < |r| ==> IsDigit(r[i])
  {
    if |s| == 0 then ""
    else if IsDigit(s[0]) then [s[0]] + DigitsOf(s[1..])
    else DigitsOf(s[1..])
  }

  lemma DigitsOfAllDigits(s: string)
    requires forall i :: 0 <= i < |s| ==> IsDigit(s[i])
    ensures DigitsOf(s) == s
  {
  }

  predicate AllDigits(s: string) {
    forall i :: 0 <= i < |s| ==> IsDigit(s[i])
  }

  function DigitValue(c: char): nat
    requires IsDigit(c)
  {
    c as int - '0' as int
  }

  function DigitChar(d: nat): char
    requires d < 10
  {
    ('0' as int + d) as char
  }

  /** `int(s)` for a string of decimal digits. */
  function NumberValue(s: string): nat
    requires AllDigits(s)
  {
    if |s| == 0 then 0 else NumberValue(s[..|s| - 1]) * 10 + DigitValue(s[|s| - 1])
  }

  /** `str(n)` for a natural number: the shortest decimal numeral. */
  function Decimal(n: nat): (r: string)
    ensures |r| >= 1 && AllDigits(r)
    ensures r[0] == '0' ==> n == 0
  {
    if n < 10 then [DigitChar(n)] else Decimal(n / 10) + [DigitChar(n % 10)]
  }

  /** Reading back the numeral that `Decimal` writes gives the number. */
  lemma {:induction false} DecimalValue(n: nat)
    ensures NumberValue(Decimal(n)) == n
  {
    if n >= 10 {
      DecimalValue(n / 10);
      var d := Decimal(n);
      assert d[..|d| - 1] == Decimal(n / 10);
    }
  }

  /** The numerals of four-digit numbers are four characters long. */
  lemma DecimalWidth4(n: nat)
    requires 1000 <= n <= 9999
    ensures |Decimal(n)| == 4
  {
    assert |Decimal(n / 1000)| == 1;
    assert |Decimal(n / 100)| == 2;
    assert |Decimal(n / 10)| == 3;
  }

  /** `str(n)` and `f"{n:d}"` for any integer. */
  function DecimalInt(n: int): string {
    if n < 0 then "-" + Decimal(-n) else Decimal(n)
  }

  /** `f"{n:02d}"`: at least two characters, zero-padded; a negative number
      already has two characters with its sign, so it is not padded. */
  function Pad2(n: int): (r: string)
    ensures |r| >= 2
    ensures 0 <= n ==> AllDigits(r) && NumberValue(r) == n
    ensures n < 0 ==> r[0] == '-'
    ensures 0 <= n < 10 ==> |r| == 2 && r[0] == '0'
    ensures n >= 10 ==> r[0] != '0' && r == Decimal(n)
    ensures n < 0 ==> r == "-" + Decimal(-n)
  {
    DecimalValue(if n < 0 then -n else n);
    if 0 <= n < 10 then
      var r := "0" + Decimal(n);
      assert r[..|r| - 1] == "0";
      r
    else DecimalInt(n)
  }

  /** `s.replace(pat, rep)`: every occurrence of `pat`, found left to right
      without overlap, is replaced by `rep`. */
  function ReplaceAll(s: string, pat: string, rep: string): string
    requires |pat| > 0
    decreases |s|
  {
    if |s| < |pat| then s
    else if s[..|pat|] == pat then rep + ReplaceAll(s[|pat|..], pat, rep)
    else [s[0]] + ReplaceAll(s[1..], pat, rep)
  }

  /** A string without an occurrence of the pattern is left unchanged. */
  lemma {:induction false} ReplaceAllAbsent(s: string, pat: string, rep: string)
    requires |pat| > 0 && !Contains(s, pat)
    ensures ReplaceAll(s, pat, rep) == s
    decreases |s|
  {
    ContainsMeaning(s, pat);
    if |s| >= |pat| {
      assert !OccursAt(s, pat, 0);
      ContainsMeaning(s[1..], pat);
      forall j | OccursAt(s[1..], pat, j)
        ensures false
      {
        assert s[1..][j..j + |pat|] == s[j + 1..j + 1 + |pat|];
        assert OccursAt(s, pat, j + 1);
      }
      ReplaceAllAbsent(s[1..], pat, rep);
    }
  }

  /** An occurrence at the very start is replaced, and the rest is processed
      on its own. */
  lemma ReplaceAllPrefix(pat: string, rest: string, rep: string)
    requires |pat| > 0
    ensures ReplaceAll(pat + rest, pat, rep) == rep + ReplaceAll(rest, pat, rep)
  {
    assert (pat + rest)[..|pat|] == pat;
    assert (pat + rest)[|pat|..] == rest;
  }
}
