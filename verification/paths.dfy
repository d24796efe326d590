/** Where a downloaded file is moved: the context sanitisation and template
    choice of `Bandcamper.move_file`, the string part of
    `Bandcamper._sanitize_file_path`, the platform alias, and the skip rules
    of `Bandcamper._download_cover_image`. Paths are POSIX strings. */
module Paths {
  import opened Wrappers
  import opened Strings

  /** Platform names `platform.system()` reports that the path sanitiser
      knows under another name. */
  const Platforms: map<string, string> := map["Darwin" := "macOS"]

  /** `PLATFORMS.get(system, system)` */
  function PlatformName(system: string): (r: string)
    ensures r != system <==> system == "Darwin"
    ensures system == "Darwin" ==> r == "macOS"
  {
    if system in Platforms then Platforms[system] else system
  }

  /** Aliasing a name that is already aliased changes nothing. */
  lemma PlatformNameIdempotent(system: string)
    ensures PlatformName(PlatformName(system)) == PlatformName(system)
  {
  }

  /** The number of `/` in a string: the directory boundaries it makes. */
  function Slashes(s: string): nat {
    multiset(s)['/']
  }

  /** `PurePath.name`: the text after the last `/`. */
  function Name(path: string): (r: string)
    ensures '/' !in r
    ensures |r| <= |path| && r == path[|path| - |r|..]
  {
    match FindLast(path, '/')
    case None => path
    case Some(i) => path[i + 1..]
  }

  /** `PurePath.parent` as a string: `.` for a bare name, `/` for a name
      directly under the root. */
  function Parent(path: string): (r: string)
    ensures '/' !in path ==> r == "."
    ensures '/' in path ==> r == "/" || (|r| < |path| && r == path[..|r|] && path[|r|] == '/')
  {
    match FindLast(path, '/')
    case None => "."
    case Some(i) => if i == 0 then "/" else path[..i]
  }

  /** `PurePath.suffix` of a name: from the last dot, provided the dot is
      neither the first nor the last character. */
  function Suffix(name: string): (r: string)
    ensures r == "" || (|r| >= 2 && r[0] == '.' && '.' !in r[1..] && |r| < |name| && r == name[|name| - |r|..])
  {
    match FindLast(name, '.')
    case None => ""
    case Some(i) => if 0 < i < |name| - 1 then name[i..] else ""
  }

  /** `PurePath.stem` of a name: the name without its suffix. */
  function Stem(name: string): string {
    name[..|name| - |Suffix(name)|]
  }

  /** A name is its stem followed by its suffix. */
  lemma StemSuffix(name: string)
    ensures Stem(name) + Suffix(name) == name
  {
  }

  /** `PurePath / name` for a relative or absolute `name`: an absolute name
      replaces the directory, and `.` (which `Path("")` also is) adds
      nothing. */
  function JoinPath(dir: string, name: string): (r: string)
    ensures |name| > 0 && name[0] == '/' ==> r == name
    ensures |r| >= |name| && r[|r| - |name|..] == name
  {
    if |name| > 0 && name[0] == '/' then name
    else if dir == "." || dir == "" then name
    else if |dir| > 0 && dir[|dir| - 1] == '/' then dir + name
    else dir + "/" + name
  }

  /** A value of the rendering context: text, or an integer such as a
      track number. */
  datatype Value = Text(s: string) | Number(n: int)

  type Context = map<string, Value>

  /** The text a value renders as. */
  function ValueText(v: Value): string {
    match v
    case Text(s) => s
    case Number(n) => DecimalInt(n)
  }

  lemma DecimalNoSlash(n: nat)
    ensures '/' !in Decimal(n)
  {
    var d := Decimal(n);
    assert forall i :: 0 <= i < |d| ==> IsDigit(d[i]);
  }

  lemma NumberTextNoSlash(n: int)
    ensures '/' !in DecimalInt(n)
  {
    DecimalNoSlash(if n < 0 then -n else n);
  }

  predicate SlashFree(ctx: Context) {
    forall k :: k in ctx ==> '/' !in ValueText(ctx[k])
  }

  /** The copy `move_file` renders with: every `/` in a text value becomes
      `-`; keys and numbers are kept. */
  function SanitizeContext(ctx: Context): (r: Context)
    ensures r.Keys == ctx.Keys
    ensures SlashFree(r)
    ensures forall k :: k in ctx && ctx[k].Number? ==> r[k] == ctx[k]
    ensures forall k :: k in ctx && ctx[k].Text? ==> r[k].Text? && |r[k].s| == |ctx[k].s|
    ensures forall k, i :: k in ctx && ctx[k].Text? && 0 <= i < |ctx[k].s| && ctx[k].s[i] != '/' ==> r[k].s[i] == ctx[k].s[i]
    ensures forall k :: k in ctx && ctx[k].Text? ==> r[k] == Text(ReplaceChar(ctx[k].s, '/', '-'))
  {
    var r := map k | k in ctx :: NeutralizeSlashes(ctx[k]);
    assert forall k :: k in r ==> r[k] == NeutralizeSlashes(ctx[k]);
    r
  }

  /** One context value with each `/` of its text replaced by `-`. */
  function NeutralizeSlashes(v: Value): (r: Value)
    ensures '/' !in ValueText(r)
  {
    match v
    case Text(s) =>
      ReplaceCharRemoves(s, '/', '-');
      Text(ReplaceChar(s, '/', '-'))
    case Number(n) =>
      NumberTextNoSlash(n);
      Number(n)
  }

  /** A context with no `/` in its values is left as it is; in particular
      sanitising twice is sanitising once. */
  lemma SanitizeSlashFree(ctx: Context)
    requires SlashFree(ctx)
    ensures SanitizeContext(ctx) == ctx
  {
    var r := SanitizeContext(ctx);
    forall k | k in ctx
      ensures r[k] == ctx[k]
    {
      if ctx[k].Text? {
        assert '/' !in ctx[k].s;
        assert r[k].s == ctx[k].s;
      }
    }
  }

  lemma SanitizeContextIdempotent(ctx: Context)
    ensures SanitizeContext(SanitizeContext(ctx)) == SanitizeContext(ctx)
  {
    SanitizeSlashFree(SanitizeContext(ctx));
  }

  /** An output template: literal text, which may hold `/` directory
      separators, and fields filled from the context. */
  datatype Piece = Literal(text: string) | Field(key: string)

  type Template = seq<Piece>

  /** The directory boundaries the template itself writes. */
  function LiteralSlashes(t: Template): nat {
    if |t| == 0 then 0
    else (if t[0].Literal? then Slashes(t[0].text) else 0) + LiteralSlashes(t[1..])
  }

  /** Fills the template from the context; a field the context lacks is
      an error naming it. */
  function Render(t: Template, ctx: Context): (r: Result<string, string>)
    ensures r.Failure? <==> exists i :: 0 <= i < |t| && t[i].Field? && t[i].key !in ctx
    ensures r.Failure? ==> r.error !in ctx
  {
    if |t| == 0 then Success("")
    else
      var head: Result<string, string> :=
        match t[0]
        case Literal(text) => Success(text)
        case Field(key) => if key in ctx then Success(ValueText(ctx[key])) else Failure(key);
      match head
      case Failure(key) => Failure(key)
      case Success(h) =>
        var rest := Render(t[1..], ctx);
        assert forall i :: 1 <= i < |t| ==> t[1..][i - 1] == t[i];
        match rest
        case Failure(key) => Failure(key)
        case Success(tail) => Success(h + tail)
  }

  /** With a slash-free context, the rendered text has exactly the `/` of
      the template's literals: data never adds a directory level. */
  lemma {:induction false} RenderSlashes(t: Template, ctx: Context)
    requires SlashFree(ctx)
    requires Render(t, ctx).Success?
    ensures Slashes(Render(t, ctx).value) == LiteralSlashes(t)
  {
    if |t| > 0 {
      RenderSlashes(t[1..], ctx);
      var tail := Render(t[1..], ctx).value;
      match t[0]
      case Literal(text) =>
        assert Render(t, ctx).value == text + tail;
      case Field(key) =>
        assert '/' !in ValueText(ctx[key]);
        assert Render(t, ctx).value == ValueText(ctx[key]) + tail;
    }
  }

  /** `t` ends with the lower-case `e`, ignoring case. */
  predicate EndsWithIgnoringCase(t: string, e: string)
    decreases |e|
  {
    |e| <= |t| && (|e| == 0 || (LowerChar(t[|t| - 1]) == e[|e| - 1] && EndsWithIgnoringCase(t[..|t| - 1], e[..|e| - 1])))
  }

  /** A text that ends with a lower-case `e` exactly ends with it
      ignoring case. */
  lemma {:induction false} EndsWithExactly(t: string, e: string)
    requires |e| <= |t| && t[|t| - |e|..] == e
    requires forall i :: 0 <= i < |e| ==> LowerChar(e[i]) == e[i]
    ensures EndsWithIgnoringCase(t, e)
    decreases |e|
  {
    if |e| > 0 {
      var t1, e1 := t[..|t| - 1], e[..|e| - 1];
      assert t1[|t1| - |e1|..] == e1;
      EndsWithExactly(t1, e1);
    }
  }

  /** The text ends with one of the extensions `_sanitize_file_path`
      recognises as audio, ignoring case. */
  predicate HasAudioExtension(t: string) {
    || EndsWithIgnoringCase(t, ".mp3") || EndsWithIgnoringCase(t, ".flac")
    || EndsWithIgnoringCase(t, ".wav") || EndsWithIgnoringCase(t, ".m4a")
    || EndsWithIgnoringCase(t, ".aiff") || EndsWithIgnoringCase(t, ".ogg")
  }

  /** Where the pattern's `$` can match: the end, or just before a final
      line break. */
  function MatchEnd(s: string): (e: nat)
    ensures e <= |s|
    ensures e == |s| || (e == |s| - 1 && s[e] == '\n')
  {
    if |s| > 0 && s[|s| - 1] == '\n' then |s| - 1 else |s|
  }

  /** The line the pattern can match in: the part of `s` up to `MatchEnd`
      after its last line break, since `.` does not match a line break. */
  function LastLine(s: string): (r: string)
    ensures '\n' !in r
    ensures '\n' !in s ==> r == s
    ensures |r| <= |s|
  {
    var t := s[..MatchEnd(s)];
    match FindLast(t, '\n')
    case None => t
    case Some(i) => t[i + 1..]
  }

  /** `_sanitize_file_path` as written, up to the call of the foreign
      `sanitize_filepath`. Its pattern searches, ignoring case, for any
      characters up to a `/` followed by any characters and an audio
      extension at the end. A match keeps the matched line, minus a slash
      it starts with when that is its only one; otherwise every `/`
      becomes `-`. */
  function SanitizeFilePathAsWritten(s: string): (r: string)
    ensures var line := LastLine(s);
            '/' in line && HasAudioExtension(line) ==>
              && Name(r) == Name(line)
              && (r == line || (line[0] == '/' && r == line[1..] && '/' !in r))
    ensures !('/' in LastLine(s) && HasAudioExtension(LastLine(s))) ==> r == ReplaceChar(s, '/', '-') && '/' !in r
  {
    var line := LastLine(s);
    if '/' in line && HasAudioExtension(line) then
      var j := FindLast(line, '/').value;
      if j > 0 then line else NameAfterRoot(line); line[1..]
    else
      ReplaceCharRemoves(s, '/', '-');
      ReplaceChar(s, '/', '-')
  }

  /** `_sanitize_file_path` as evidently intended: the text after the last
      `/` is the file name and everything before it the directory, for
      every kind of file. The directory part is kept, a slash at the very
      start that is the only one is dropped as in the source, and the file
      name holds no `/` already. */
  function SanitizeFilePath(s: string): (r: string)
    ensures '/' !in s ==> r == s
    ensures '/' in s ==> Name(r) == Name(s)
  {
    match FindLast(s, '/')
    case None => s
    case Some(j) => if j > 0 then s else NameAfterRoot(s); s[1..]
  }

  /** A path with its only slash in front is named by the rest. */
  lemma NameAfterRoot(s: string)
    requires FindLast(s, '/') == Some(0)
    ensures Name(s[1..]) == s[1..] && Name(s) == s[1..]
  {
    assert '/' !in s[1..];
  }

  /** The intended split keeps every directory boundary of the path but a
      lone leading one. */
  lemma SanitizeKeepsDirectories(s: string)
    ensures var r := SanitizeFilePath(s);
            || r == s
            || (s[0] == '/' && r == s[1..] && Slashes(r) == 0 && Slashes(s) == 1)
  {
    match FindLast(s, '/')
    case None =>
    case Some(j) =>
      if j == 0 {
        assert s == [s[0]] + s[1..];
        assert '/' !in s[1..];
      }
  }

  /** On a one-line audio path the code as written and the intended split
      agree. */
  lemma AsWrittenAgreesOnAudio(s: string)
    requires '\n' !in s && '/' in s && HasAudioExtension(s)
    ensures SanitizeFilePathAsWritten(s) == SanitizeFilePath(s)
  {
  }

  /** Matching an extension fixes the third character from the end. */
  lemma ThirdLast(t: string, e: string)
    requires |e| >= 3 && EndsWithIgnoringCase(t, e)
    ensures LowerChar(t[|t| - 3]) == e[|e| - 3]
  {
    var t1, e1 := t[..|t| - 1], e[..|e| - 1];
    assert EndsWithIgnoringCase(t1, e1);
    var t2, e2 := t1[..|t1| - 1], e1[..|e1| - 1];
    assert EndsWithIgnoringCase(t2, e2);
    assert t2[|t2| - 1] == t[|t| - 3];
  }

  /** A name whose third character from the end is `j` has no audio
      extension. */
  lemma NotAudioByThirdLast(t: string)
    requires |t| >= 3 && LowerChar(t[|t| - 3]) == 'j'
    ensures !HasAudioExtension(t)
  {
    if EndsWithIgnoringCase(t, ".mp3") { ThirdLast(t, ".mp3"); }
    if EndsWithIgnoringCase(t, ".flac") { ThirdLast(t, ".flac"); }
    if EndsWithIgnoringCase(t, ".wav") { ThirdLast(t, ".wav"); }
    if EndsWithIgnoringCase(t, ".m4a") { ThirdLast(t, ".m4a"); }
    if EndsWithIgnoringCase(t, ".aiff") { ThirdLast(t, ".aiff"); }
    if EndsWithIgnoringCase(t, ".ogg") { ThirdLast(t, ".ogg"); }
  }

  /** Under the code as written, a path of a file that is not audio loses
      all its directories, while the intended split keeps the path. */
  lemma ExtraFileFlattened(dir: string, name: string)
    requires 0 < |dir| && '\n' !in dir + "/" + name
    requires !HasAudioExtension(dir + "/" + name)
    ensures SanitizeFilePathAsWritten(dir + "/" + name) == ReplaceChar(dir + "/" + name, '/', '-')
    ensures '/' !in SanitizeFilePathAsWritten(dir + "/" + name)
    ensures SanitizeFilePath(dir + "/" + name) == dir + "/" + name
  {
    var s := dir + "/" + name;
    assert LastLine(s) == s;
    SanitizeKeepsInnerSlash(s, |dir|);
  }

  /** `/music/A/cover.jpg` becomes `-music-A-cover.jpg` under the code as
      written: a name relative to the working directory. */
  lemma ExtraFileExample()
    ensures var s := "/music/A/cover.jpg";
            && SanitizeFilePathAsWritten(s) == ReplaceChar(s, '/', '-')
            && '/' !in SanitizeFilePathAsWritten(s)
            && SanitizeFilePath(s) == s
  {
    var s := "/music/A/cover.jpg";
    assert s == "/music/A" + "/" + "cover.jpg";
    assert LowerChar(s[|s| - 3]) == 'j';
    NotAudioByThirdLast(s);
    ExtraFileFlattened("/music/A", "cover.jpg");
  }

  /** Under the code as written, a line break in the path drops everything
      before it: only the last line is kept. */
  lemma LineBreakDropsDirectory(before: string, line: string)
    requires '\n' !in line && '/' in line && line[0] != '/' && HasAudioExtension(line)
    ensures SanitizeFilePathAsWritten(before + "\n" + line) == line
  {
    var s := before + "\n" + line;
    assert s[|s| - 1] == line[|line| - 1];
    assert MatchEnd(s) == |s|;
    assert s[..MatchEnd(s)] == s;
    assert s[|before| + 1..] == line;
    FindLastAt(s, '\n', |before|);
    assert LastLine(s) == line;
    assert FindLast(line, '/').value > 0;
  }

  lemma ExampleAudioLine()
    ensures var line := "B/t.mp3";
            '\n' !in line && '/' in line && line[0] != '/' && HasAudioExtension(line)
  {
    var line := "B/t.mp3";
    assert line[0] == 'B' && line[1] == '/';
    assert line[|line| - 4..] == ".mp3";
    EndsWithExactly(line, ".mp3");
  }

  /** `/d/A` followed by a line break and `B/t.mp3` becomes `B/t.mp3` under
      the code as written. */
  lemma LineBreakExample()
    ensures SanitizeFilePathAsWritten("/d/A" + "\n" + "B/t.mp3") == "B/t.mp3"
    ensures SanitizeFilePath("/d/A" + "\n" + "B/t.mp3") == "/d/A" + "\n" + "B/t.mp3"
  {
    ExampleAudioLine();
    LineBreakDropsDirectory("/d/A", "B/t.mp3");
    SanitizeKeepsInnerSlash("/d/A" + "\n" + "B/t.mp3", 2);
  }

  /** The context `move_file` renders with, before sanitising: the track
      context merged in for an audio file, `filename` set otherwise. The
      source updates the caller's dict, so this is also the context the
      caller holds afterwards. */
  function MoveContext(file: string, audioSuffixes: set<string>, trackContext: Context, ctx: Context): (r: Context)
    ensures ctx.Keys <= r.Keys
    ensures Suffix(Name(file)) in audioSuffixes ==> r.Keys == ctx.Keys + trackContext.Keys
    ensures Suffix(Name(file)) !in audioSuffixes ==> r.Keys == ctx.Keys + {"filename"} && r["filename"] == Text(Name(file))
    ensures Suffix(Name(file)) in audioSuffixes ==> forall k :: k in trackContext ==> r[k] == trackContext[k]
    ensures Suffix(Name(file)) in audioSuffixes ==> forall k :: k in ctx && k !in trackContext ==> r[k] == ctx[k]
    ensures Suffix(Name(file)) !in audioSuffixes ==> forall k :: k in ctx && k != "filename" ==> r[k] == ctx[k]
  {
    if Suffix(Name(file)) in audioSuffixes then ctx + trackContext
    else ctx["filename" := Text(Name(file))]
  }

  /** Merging a second time changes nothing: the track context (or the
      file name) already holds every value the merge writes. */
  lemma MoveContextIdempotent(file: string, audioSuffixes: set<string>, trackContext: Context, ctx: Context)
    ensures var once := MoveContext(file, audioSuffixes, trackContext, ctx);
            MoveContext(file, audioSuffixes, trackContext, once) == once
  {
  }

  /** The audio template for a file whose suffix is an audio suffix, the
      extra template otherwise. */
  function MoveTemplate(file: string, output: Template, outputExtra: Template, audioSuffixes: set<string>): Template {
    if Suffix(Name(file)) in audioSuffixes then output else outputExtra
  }

  /** The name `move_file` renders for a file, before it is joined to the
      destination. */
  function Formatted(file: string, output: Template, outputExtra: Template,
                     audioSuffixes: set<string>, trackContext: Context, ctx: Context): Result<string, string> {
    Render(MoveTemplate(file, output, outputExtra, audioSuffixes), SanitizeContext(MoveContext(file, audioSuffixes, trackContext, ctx)))
  }

  /** `move_file` with the intended path split, up to the filesystem move:
      the path the file moves to, and the caller's context afterwards. It
      fails only on a field the context lacks, and the file keeps the last
      component of the rendered path as its name. */
  function MoveFile(file: string, destination: string, output: Template, outputExtra: Template,
                    audioSuffixes: set<string>, trackContext: Context, ctx: Context): (r: Result<(string, Context), string>)
    ensures r.Success? ==> r.value.1 == MoveContext(file, audioSuffixes, trackContext, ctx)
    ensures r.Failure? ==> r.error !in MoveContext(file, audioSuffixes, trackContext, ctx)
    ensures var f := Formatted(file, output, outputExtra, audioSuffixes, trackContext, ctx);
            && (r.Success? <==> f.Success?)
            && (r.Success? ==> Name(r.value.0) == Name(JoinPath(destination, f.value)))
  {
    var context := MoveContext(file, audioSuffixes, trackContext, ctx);
    var formatted :- Formatted(file, output, outputExtra, audioSuffixes, trackContext, ctx);
    Success((SanitizeFilePath(JoinPath(destination, formatted)), context))
  }

  /** `move_file` as written: the same rendering, with the path split that
      `_sanitize_file_path` performs as written. */
  function MoveFileAsWritten(file: string, destination: string, output: Template, outputExtra: Template,
                             audioSuffixes: set<string>, trackContext: Context, ctx: Context): (r: Result<(string, Context), string>)
    ensures r.Success? ==> r.value.1 == MoveContext(file, audioSuffixes, trackContext, ctx)
    ensures var f := Formatted(file, output, outputExtra, audioSuffixes, trackContext, ctx);
            && (r.Success? <==> f.Success?)
            && (r.Success? ==> var p := JoinPath(destination, f.value);
                                !('/' in LastLine(p) && HasAudioExtension(LastLine(p))) ==> r.value.0 == ReplaceChar(p, '/', '-'))
  {
    var context := MoveContext(file, audioSuffixes, trackContext, ctx);
    var formatted :- Formatted(file, output, outputExtra, audioSuffixes, trackContext, ctx);
    Success((SanitizeFilePathAsWritten(JoinPath(destination, formatted)), context))
  }

  /** The code as written moves a file whose rendered path is not an audio
      path into a flat name, while the intended split keeps its directories:
      the two differ exactly by the directories of the path. */
  lemma MoveFileExtrasFlattened(file: string, destination: string, output: Template, outputExtra: Template,
                                audioSuffixes: set<string>, trackContext: Context, ctx: Context)
    requires destination != "" && destination != "." && destination != "/" && '\n' !in destination
    requires var f := Formatted(file, output, outputExtra, audioSuffixes, trackContext, ctx);
             && f.Success? && f.value != "" && f.value[0] != '/' && '\n' !in f.value
             && !HasAudioExtension(JoinPath(destination, f.value))
    ensures var f := Formatted(file, output, outputExtra, audioSuffixes, trackContext, ctx).value;
            var p := JoinPath(destination, f);
            && MoveFile(file, destination, output, outputExtra, audioSuffixes, trackContext, ctx).value.0 == p
            && MoveFileAsWritten(file, destination, output, outputExtra, audioSuffixes, trackContext, ctx).value.0 == ReplaceChar(p, '/', '-')
            && '/' in p && '/' !in ReplaceChar(p, '/', '-')
  {
    var f := Formatted(file, output, outputExtra, audioSuffixes, trackContext, ctx).value;
    var p := JoinPath(destination, f);
    JoinedKept(destination, f);
    JoinedOneLine(destination, f);
    ReplaceCharRemoves(p, '/', '-');
  }

  /** A join of two one-line texts is one line, and holds a `/` once the
      directory is a real one. */
  lemma JoinedOneLine(destination: string, name: string)
    requires destination != "" && destination != "." && '\n' !in destination && '\n' !in name
    requires !(|name| > 0 && name[0] == '/')
    ensures '\n' !in JoinPath(destination, name) && '/' in JoinPath(destination, name)
    ensures LastLine(JoinPath(destination, name)) == JoinPath(destination, name)
  {
    var p := JoinPath(destination, name);
    if destination[|destination| - 1] == '/' {
      assert p == destination + name;
      assert p[|destination| - 1] == '/';
    } else {
      assert p == destination + "/" + name;
      assert p[|destination|] == '/';
    }
  }

  /** A path with a `/` after its first character is kept whole. */
  lemma SanitizeKeepsInnerSlash(s: string, k: nat)
    requires 0 < k < |s| && s[k] == '/'
    ensures SanitizeFilePath(s) == s
  {
  }

  /** A relative name joined to a real directory keeps its directories. */
  lemma JoinedKept(destination: string, name: string)
    requires destination != "/"
    requires !(|name| > 0 && name[0] == '/')
    ensures SanitizeFilePath(JoinPath(destination, name)) == JoinPath(destination, name)
  {
    var path := JoinPath(destination, name);
    if destination == "." || destination == "" {
      assert path == name;
      match FindLast(name, '/')
      case None =>
      case Some(j) => assert j > 0;
    } else if destination[|destination| - 1] == '/' {
      assert path == destination + name;
      SanitizeKeepsInnerSlash(path, |destination| - 1);
    } else {
      assert path == destination + "/" + name;
      SanitizeKeepsInnerSlash(path, |destination|);
    }
  }

  /** The guarantee `move_file` is built for: whatever `/` the context
      values hold, the rendered name has only the `/` of the template's
      literals, and the file moves to the destination joined with it. */
  lemma MoveFileLevels(file: string, destination: string, output: Template, outputExtra: Template,
                       audioSuffixes: set<string>, trackContext: Context, ctx: Context)
    requires destination != "/"
    requires MoveFile(file, destination, output, outputExtra, audioSuffixes, trackContext, ctx).Success?
    ensures var template := MoveTemplate(file, output, outputExtra, audioSuffixes);
            var formatted := Render(template, SanitizeContext(MoveContext(file, audioSuffixes, trackContext, ctx))).value;
            var moved := MoveFile(file, destination, output, outputExtra, audioSuffixes, trackContext, ctx).value.0;
            && Slashes(formatted) == LiteralSlashes(template)
            && ((|formatted| > 0 && formatted[0] == '/') || moved == JoinPath(destination, formatted))
  {
    var template := MoveTemplate(file, output, outputExtra, audioSuffixes);
    var context := SanitizeContext(MoveContext(file, audioSuffixes, trackContext, ctx));
    var formatted := Render(template, context).value;
    RenderSlashes(template, context);
    assert MoveFile(file, destination, output, outputExtra, audioSuffixes, trackContext, ctx).value.0
        == SanitizeFilePath(JoinPath(destination, formatted));
    if !(|formatted| > 0 && formatted[0] == '/') {
      JoinedKept(destination, formatted);
    }
  }

  /** What `_download_cover_image` does. */
  datatype CoverStep = NoCover | CoverExists(path: string) | FetchCover(url: string, path: string)

  /** `_download_cover_image`: nothing without an art URL or a moved file;
      nothing when `cover.png` already exists beside the first moved file;
      otherwise a download to it. */
  function CoverAction(artUrl: Option<string>, moved: seq<string>, coverExists: string -> bool): (r: CoverStep)
    ensures r.NoCover? <==> artUrl.None? || artUrl == Some("") || |moved| == 0
    ensures r.FetchCover? <==> artUrl.Some? && artUrl.value != "" && |moved| > 0 && !coverExists(JoinPath(Parent(moved[0]), "cover.png"))
    ensures r.FetchCover? ==> r.url == artUrl.value && r.path == JoinPath(Parent(moved[0]), "cover.png")
    ensures r.FetchCover? || r.CoverExists? ==> Name(r.path) == "cover.png"
  {
    if artUrl.None? || artUrl.value == "" || |moved| == 0 then NoCover
    else
      var path := JoinPath(Parent(moved[0]), "cover.png");
      assert '/' !in "cover.png";
      JoinName(Parent(moved[0]), "cover.png");
      if coverExists(path) then CoverExists(path) else FetchCover(artUrl.value, path)
  }

  /** The text after the last `/` is the name, and the text before it the
      parent. */
  lemma SplitAtLastSlash(a: string, b: string)
    requires '/' !in b
    ensures Name(a + "/" + b) == b
    ensures Parent(a + "/" + b) == if a == "" then "/" else a
  {
    var p := a + "/" + b;
    assert p[|a| + 1..] == b;
    FindLastAt(p, '/', |a|);
    assert p[..|a|] == a;
  }

  /** Joining a plain name to any directory names a file of that name. */
  lemma JoinName(dir: string, c: string)
    requires '/' !in c
    ensures Name(JoinPath(dir, c)) == c
  {
    var p := JoinPath(dir, c);
    if dir == "." || dir == "" {
      assert p == c;
    } else {
      var d := if dir[|dir| - 1] == '/' then dir[..|dir| - 1] else dir;
      JoinSplit(dir, c);
      SplitAtLastSlash(d, c);
    }
  }

  /** Joining a name without `/` to a directory writes one `/` before it. */
  lemma JoinSplit(dir: string, c: string)
    requires dir != "." && dir != "" && '/' !in c
    ensures JoinPath(dir, c) == (if dir[|dir| - 1] == '/' then dir[..|dir| - 1] else dir) + "/" + c
  {
    if dir[|dir| - 1] == '/' {
      assert dir == dir[..|dir| - 1] + "/";
    }
  }

  /** A plain name joined to the parent of a path lands in that parent,
      for a path without doubled slashes, as `pathlib` writes them. */
  lemma JoinBeside(file: string, c: string)
    requires forall i :: 0 <= i < |file| - 1 ==> !(file[i] == '/' && file[i + 1] == '/')
    requires '/' !in c
    ensures Parent(JoinPath(Parent(file), c)) == Parent(file)
  {
    ParentUnslashed(file);
    var dir := Parent(file);
    if dir == "." {
      assert JoinPath(dir, c) == c;
    } else {
      JoinUnslashed(dir, c);
    }
  }

  /** The parent of a path without doubled slashes is `.`, `/`, or does not
      end in a slash. */
  lemma ParentUnslashed(file: string)
    requires forall i :: 0 <= i < |file| - 1 ==> !(file[i] == '/' && file[i + 1] == '/')
    ensures var d := Parent(file); d == "." || d == "/" || (|d| > 0 && d[|d| - 1] != '/')
  {
    if '/' in file && Parent(file) != "/" {
      var i := FindLast(file, '/').value;
      assert Parent(file) == file[..i] && i > 0;
      assert Parent(file)[i - 1] == file[i - 1];
    }
  }

  /** Joining a plain name to `/` or to a directory without a trailing slash
      keeps that directory as the parent. */
  lemma JoinUnslashed(dir: string, c: string)
    requires dir != "." && (dir == "/" || (|dir| > 0 && dir[|dir| - 1] != '/'))
    requires '/' !in c
    ensures Parent(JoinPath(dir, c)) == dir
  {
    assert !(|c| > 0 && c[0] == '/') by {
      if |c| > 0 { assert c[0] in c; }
    }
    if dir == "/" {
      assert JoinPath(dir, c) == "" + "/" + c;
      SplitAtLastSlash("", c);
    } else {
      assert JoinPath(dir, c) == dir + "/" + c;
      SplitAtLastSlash(dir, c);
    }
  }

  /** `cover.png` lands in the directory of the file it is placed beside. */
  lemma CoverBeside(file: string)
    requires forall i :: 0 <= i < |file| - 1 ==> !(file[i] == '/' && file[i + 1] == '/')
    ensures var p := JoinPath(Parent(file), "cover.png");
            Name(p) == "cover.png" && Parent(p) == Parent(file)
  {
    assert '/' !in "cover.png";
    JoinName(Parent(file), "cover.png");
    JoinBeside(file, "cover.png");
  }
}
