/**
  The shape of a dotnet argument string: the quoted target path followed by
  space-separated flag fragments. `Render` writes flags the way the builders
  append them; `ParseArguments` is this model's reader of an argument string
  (tokens separated by spaces, where a token opening with `"` runs to the next
  `"` and may hold spaces), so that what a builder emits can be stated as the
  exact flag sequence it encodes.
 */
module CommandLine {
  import opened Wrappers
  import opened Text

  /** One fragment a builder can append, with the text it contributes. */
  datatype Flag =
    | Framework(framework: string)           // " -f {framework}"
    | Configuration(configuration: string)   // " -c {configuration}"
    | LongConfiguration(configuration: string) // " --configuration {configuration}"
    | Verbosity(verbosity: string)           // " -v {verbosity}"
    | NoBuild                                // " --no-build"
    | NoRestore                              // " --no-restore"
    | PackageVersion(version: string)        // " -p:PackageVersion={version}"
    | Output(output: string)                 // " --output \"{output}\""
    | Version(version: string)               // " --version {version}"
    | Outdated                               // " --outdated"
    | PackageVerb                            // " package"
    | PackageId(packageId: string)           // " \"{packageId}\""

  /** The target path and the flags that follow it. */
  datatype Invocation = Invocation(path: string, flags: seq<Flag>)

  const PackageVersionPrefix := "-p:PackageVersion="

  /** `"{s}"`: the path and the package id are written between double quotes. */
  function Quote(s: string): string
  {
    "\"" + s + "\""
  }

  /** The space-separated tokens of one flag. */
  function FlagTokens(f: Flag): seq<string>
  {
    match f
    case Framework(v) => ["-f", v]
    case Configuration(v) => ["-c", v]
    case LongConfiguration(v) => ["--configuration", v]
    case Verbosity(v) => ["-v", v]
    case NoBuild => ["--no-build"]
    case NoRestore => ["--no-restore"]
    case PackageVersion(v) => [PackageVersionPrefix + v]
    case Output(v) => ["--output", Quote(v)]
    case Version(v) => ["--version", v]
    case Outdated => ["--outdated"]
    case PackageVerb => ["package"]
    case PackageId(v) => [Quote(v)]
  }

  function Tokens(fs: seq<Flag>): seq<string>
  {
    if fs == [] then [] else FlagTokens(fs[0]) + Tokens(fs[1..])
  }

  /** The text a flag sequence appends to the quoted path. */
  function Render(fs: seq<Flag>): string
  {
    Join(Tokens(fs))
  }

  /** A value written without quotes that reads back as one token: non-empty, no spaces, not opening a quote. */
  predicate BareValue(v: string)
  {
    IsToken(v) && v[0] != '"'
  }

  /** The values a well-formed flag may carry: quoted values may hold spaces but no `"`. */
  predicate WellFormedFlag(f: Flag)
  {
    match f
    case Framework(v) => BareValue(v)
    case Configuration(v) => BareValue(v)
    case LongConfiguration(v) => BareValue(v)
    case Verbosity(v) => BareValue(v)
    case PackageVersion(v) => ' ' !in v
    case Output(v) => '"' !in v
    case Version(v) => BareValue(v)
    case PackageId(v) => '"' !in v
    case _ => true
  }

  predicate WellFormed(fs: seq<Flag>)
  {
    forall k :: 0 <= k < |fs| ==> WellFormedFlag(fs[k])
  }

  // ---------------------------------------------------------------- rendering

  lemma {:induction false} TokensAppend(a: seq<Flag>, b: seq<Flag>)
    ensures Tokens(a + b) == Tokens(a) + Tokens(b)
  {
    if a == [] {
      assert a + b == b;
    } else {
      assert (a + b)[0] == a[0];
      assert (a + b)[1..] == a[1..] + b;
      TokensAppend(a[1..], b);
    }
  }

  /** Rendering distributes over concatenation: flags are appended one after another. */
  lemma RenderAppend(a: seq<Flag>, b: seq<Flag>)
    ensures Render(a + b) == Render(a) + Render(b)
  {
    TokensAppend(a, b);
    JoinAppend(Tokens(a), Tokens(b));
  }

  lemma RenderOne(f: Flag)
    ensures Render([f]) == Join(FlagTokens(f))
  {
    assert [f][1..] == [];
    assert Tokens([f]) == FlagTokens(f) + Tokens([]);
    assert FlagTokens(f) + [] == FlagTokens(f);
  }

  /** `Render` of the sequence `fs + [f]`: `f`'s fragment is appended last. */
  lemma RenderSnoc(fs: seq<Flag>, f: Flag)
    ensures Render(fs + [f]) == Render(fs) + Join(FlagTokens(f))
  {
    RenderAppend(fs, [f]);
    RenderOne(f);
  }

  /** The text of one flag exactly as a builder appends it. */
  function Fragment(f: Flag): string
  {
    match f
    case Framework(v) => " -f " + v
    case Configuration(v) => " -c " + v
    case LongConfiguration(v) => " --configuration " + v
    case Verbosity(v) => " -v " + v
    case NoBuild => " --no-build"
    case NoRestore => " --no-restore"
    case PackageVersion(v) => " -p:PackageVersion=" + v
    case Output(v) => " --output \"" + v + "\""
    case Version(v) => " --version " + v
    case Outdated => " --outdated"
    case PackageVerb => " package"
    case PackageId(v) => " \"" + v + "\""
  }

  lemma JoinOne(a: string)
    ensures Join([a]) == " " + a
  {
    assert [a][1..] == [];
  }

  lemma JoinTwo(name: string, v: string)
    ensures Join([name, v]) == " " + name + " " + v
  {
    assert [name, v][1..] == [v];
    JoinOne(v);
  }

  /** A two-token flag is the space-prefixed name, a space and the value. */
  lemma JoinNamed(name: string, text: string, v: string)
    requires text == " " + name + " "
    ensures Join([name, v]) == text + v
  {
    JoinTwo(name, v);
  }

  predicate IsNamedValueFlag(f: Flag)
  {
    f.Framework? || f.Configuration? || f.LongConfiguration? || f.Verbosity? || f.Version? || f.Output?
  }

  lemma FragmentTokensShortName(f: Flag)
    requires f.Framework? || f.Configuration? || f.Verbosity?
    ensures Fragment(f) == Join(FlagTokens(f))
  {
    match f
    case Framework(v) => JoinNamed("-f", " -f ", v);
    case Configuration(v) => JoinNamed("-c", " -c ", v);
    case Verbosity(v) => JoinNamed("-v", " -v ", v);
  }

  lemma FragmentTokensLongName(f: Flag)
    requires f.LongConfiguration? || f.Version? || f.Output?
    ensures Fragment(f) == Join(FlagTokens(f))
  {
    match f
    case LongConfiguration(v) => JoinNamed("--configuration", " --configuration ", v);
    case Version(v) => JoinNamed("--version", " --version ", v);
    case Output(v) =>
      JoinNamed("--output", " --output ", Quote(v));
      assert " --output " + Quote(v) == " --output \"" + v + "\"";
  }

  /** A flag of one token: its fragment is that token after one space. */
  lemma SingleToken(f: Flag, t: string)
    requires FlagTokens(f) == [t] && Fragment(f) == " " + t
    ensures Fragment(f) == Join(FlagTokens(f))
  {
    JoinOne(t);
  }

  lemma FragmentTokensBare(f: Flag)
    requires f.NoBuild? || f.NoRestore? || f.Outdated? || f.PackageVerb?
    ensures Fragment(f) == Join(FlagTokens(f))
  {
    match f
    case NoBuild =>
      SingleToken(f, "--no-build");
    case NoRestore =>
      SingleToken(f, "--no-restore");
    case Outdated =>
      SingleToken(f, "--outdated");
    case PackageVerb =>
      SingleToken(f, "package");
  }

  lemma FragmentTokensSingle(f: Flag)
    requires f.PackageVersion? || f.PackageId?
    ensures Fragment(f) == Join(FlagTokens(f))
  {
    match f
    case PackageVersion(v) =>
      assert " " + (PackageVersionPrefix + v) == " -p:PackageVersion=" + v;
      SingleToken(f, PackageVersionPrefix + v);
    case PackageId(v) =>
      assert " " + Quote(v) == " \"" + v + "\"";
      SingleToken(f, Quote(v));
  }

  /** A fragment is its flag's tokens, each preceded by one space. */
  lemma FragmentTokens(f: Flag)
    ensures Fragment(f) == Join(FlagTokens(f))
  {
    if f.Framework? || f.Configuration? || f.Verbosity? {
      FragmentTokensShortName(f);
    } else if IsNamedValueFlag(f) {
      FragmentTokensLongName(f);
    } else if f.PackageVersion? || f.PackageId? {
      FragmentTokensSingle(f);
    } else {
      FragmentTokensBare(f);
    }
  }

  /** Appending one fragment to a rendered argument string renders one more flag. */
  lemma Extend(path: string, fs: seq<Flag>, f: Flag, argument: string)
    requires argument == Quote(path) + Render(fs)
    ensures argument + Fragment(f) == Quote(path) + Render(fs + [f])
  {
    RenderSnoc(fs, f);
    FragmentTokens(f);
  }

  // ---------------------------------------------------------------- reading back

  predicate IsQuotedToken(t: string)
  {
    |t| >= 2 && t[0] == '"' && t[|t| - 1] == '"'
  }

  function Unquote(t: string): string
    requires IsQuotedToken(t)
  {
    t[1..|t| - 1]
  }

  function Prepend(f: Flag, rest: Option<seq<Flag>>): Option<seq<Flag>>
  {
    match rest
    case None => None
    case Some(fs) => Some([f] + fs)
  }

  /**
    Splits an argument string into tokens at runs of spaces; a token that opens
    with `"` runs to the next `"` and keeps its quotes and any spaces inside them
    (to the end of the string when no `"` closes it).
   */
  function ArgTokens(s: string): (r: seq<string>)
    ensures forall k :: 0 <= k < |r| ==> r[k] != [] && r[k][0] != ' '
    decreases |s|
  {
    if s == [] then []
    else if s[0] == ' ' then ArgTokens(s[1..])
    else if s[0] == '"' then
      var n := IndexOf(s[1..], '"');
      if n == |s| - 1 then [s] else [s[..n + 2]] + ArgTokens(s[n + 2..])
    else
      var n := IndexOf(s, ' ');
      [s[..n]] + ArgTokens(s[n..])
  }

  /** A token `ArgTokens` reads whole: a quoted value without inner quotes, or a bare token. */
  predicate ArgToken(t: string)
  {
    (IsQuotedToken(t) && '"' !in Unquote(t)) || BareValue(t)
  }

  lemma ArgTokensSpace(s: string)
    ensures ArgTokens(" " + s) == ArgTokens(s)
  {
    assert (" " + s)[1..] == s;
  }

  /** A whole token followed by nothing or by a space is read off first. */
  lemma ArgTokensFirst(t: string, rest: string)
    requires ArgToken(t)
    requires rest == [] || rest[0] == ' '
    ensures ArgTokens(t + rest) == [t] + ArgTokens(rest)
  {
    var s := t + rest;
    if IsQuotedToken(t) && '"' !in Unquote(t) {
      var inner := Unquote(t);
      assert s[1..] == inner + ("\"" + rest);
      IndexOfAfter(inner, '"', "\"" + rest);
      assert s[..|inner| + 2] == t;
      assert s[|inner| + 2..] == rest;
    } else {
      IndexOfAfter(t, ' ', rest);
      assert s[..|t|] == t;
      assert s[|t|..] == rest;
    }
  }

  /** The inverse of `Join` on whole tokens. */
  lemma {:induction false} ArgTokensJoin(ts: seq<string>)
    requires forall k :: 0 <= k < |ts| ==> ArgToken(ts[k])
    ensures ArgTokens(Join(ts)) == ts
  {
    if ts != [] {
      var rest := Join(ts[1..]);
      JoinCons(ts);
      ArgTokensSpace(ts[0] + rest);
      ArgTokensFirst(ts[0], rest);
      ArgTokensJoin(ts[1..]);
      assert [ts[0]] + ts[1..] == ts;
    }
  }

  /** Reads a token sequence back into flags; `None` for a token no builder emits. */
  function ParseFlags(ts: seq<string>): Option<seq<Flag>>
    decreases |ts|
  {
    if ts == [] then Some([])
    else
      var t := ts[0];
      if t == "--no-build" then Prepend(NoBuild, ParseFlags(ts[1..]))
      else if t == "--no-restore" then Prepend(NoRestore, ParseFlags(ts[1..]))
      else if t == "--outdated" then Prepend(Outdated, ParseFlags(ts[1..]))
      else if t == "package" then Prepend(PackageVerb, ParseFlags(ts[1..]))
      else if IsQuotedToken(t) then Prepend(PackageId(Unquote(t)), ParseFlags(ts[1..]))
      else if |PackageVersionPrefix| <= |t| && t[..|PackageVersionPrefix|] == PackageVersionPrefix then
        Prepend(PackageVersion(t[|PackageVersionPrefix|..]), ParseFlags(ts[1..]))
      else if |ts| < 2 then None
      else if t == "-f" then Prepend(Framework(ts[1]), ParseFlags(ts[2..]))
      else if t == "-c" then Prepend(Configuration(ts[1]), ParseFlags(ts[2..]))
      else if t == "--configuration" then Prepend(LongConfiguration(ts[1]), ParseFlags(ts[2..]))
      else if t == "-v" then Prepend(Verbosity(ts[1]), ParseFlags(ts[2..]))
      else if t == "--version" then Prepend(Version(ts[1]), ParseFlags(ts[2..]))
      else if t == "--output" && IsQuotedToken(ts[1]) then Prepend(Output(Unquote(ts[1])), ParseFlags(ts[2..]))
      else None
  }

  /** Reads an argument string: a quoted path, then flags. */
  function ParseArguments(s: string): Option<Invocation>
  {
    var ts := ArgTokens(s);
    if ts == [] || !IsQuotedToken(ts[0]) then None
    else
      match ParseFlags(ts[1..])
      case None => None
      case Some(fs) => Some(Invocation(Unquote(ts[0]), fs))
  }

  lemma ParseFlagsQuotedOrPrefixed(f: Flag, rest: seq<string>)
    requires f.PackageVersion? || f.PackageId? || f.Output?
    requires WellFormedFlag(f)
    ensures ParseFlags(FlagTokens(f) + rest) == Prepend(f, ParseFlags(rest))
  {
    var ts := FlagTokens(f) + rest;
    match f
    case PackageVersion(v) =>
      var t := PackageVersionPrefix + v;
      assert ts[0] == t && ts[1..] == rest;
      assert t[..|PackageVersionPrefix|] == PackageVersionPrefix;
      assert t[0] == '-' && t[1] == 'p';
    case PackageId(v) =>
      assert ts[0] == Quote(v) && ts[1..] == rest;
      assert Unquote(Quote(v)) == v;
    case Output(v) =>
      assert ts[0] == "--output" && ts[1] == Quote(v) && ts[2..] == rest;
      assert Unquote(Quote(v)) == v;
  }

  lemma ParseFlagsShortName(f: Flag, rest: seq<string>)
    requires f.Framework? || f.Configuration? || f.Verbosity?
    ensures ParseFlags(FlagTokens(f) + rest) == Prepend(f, ParseFlags(rest))
  {
    var ts := FlagTokens(f) + rest;
    match f
    case Framework(v) =>
      assert ts[0] == "-f" && ts[1] == v && ts[2..] == rest;
    case Configuration(v) =>
      assert ts[0] == "-c" && ts[1] == v && ts[2..] == rest;
    case Verbosity(v) =>
      assert ts[0] == "-v" && ts[1] == v && ts[2..] == rest;
  }

  lemma ParseFlagsLongName(f: Flag, rest: seq<string>)
    requires f.LongConfiguration? || f.Version?
    ensures ParseFlags(FlagTokens(f) + rest) == Prepend(f, ParseFlags(rest))
  {
    var ts := FlagTokens(f) + rest;
    match f
    case LongConfiguration(v) =>
      assert ts[0] == "--configuration" && ts[1] == v && ts[2..] == rest;
    case Version(v) =>
      assert ts[0] == "--version" && ts[1] == v && ts[2..] == rest;
  }

  lemma ParseFlagsBare(f: Flag, rest: seq<string>)
    requires f.NoBuild? || f.NoRestore? || f.Outdated? || f.PackageVerb?
    ensures ParseFlags(FlagTokens(f) + rest) == Prepend(f, ParseFlags(rest))
  {
    assert (FlagTokens(f) + rest)[1..] == rest;
  }

  /** Each well-formed flag is read back from its own tokens, whatever follows them. */
  lemma ParseFlagsOne(f: Flag, rest: seq<string>)
    requires WellFormedFlag(f)
    ensures ParseFlags(FlagTokens(f) + rest) == Prepend(f, ParseFlags(rest))
  {
    if f.PackageVersion? || f.PackageId? || f.Output? {
      ParseFlagsQuotedOrPrefixed(f, rest);
    } else if f.Framework? || f.Configuration? || f.Verbosity? {
      ParseFlagsShortName(f, rest);
    } else if f.LongConfiguration? || f.Version? {
      ParseFlagsLongName(f, rest);
    } else {
      ParseFlagsBare(f, rest);
    }
  }

  lemma {:induction false} ParseFlagsTokens(fs: seq<Flag>)
    requires WellFormed(fs)
    ensures ParseFlags(Tokens(fs)) == Some(fs)
  {
    if fs != [] {
      ParseFlagsTokens(fs[1..]);
      ParseFlagsOne(fs[0], Tokens(fs[1..]));
      assert [fs[0]] + fs[1..] == fs;
    }
  }

  lemma QuoteIsArgToken(v: string)
    requires '"' !in v
    ensures ArgToken(Quote(v))
  {
    assert Unquote(Quote(v)) == v;
  }

  lemma PackageVersionIsToken(v: string)
    requires ' ' !in v
    ensures BareValue(PackageVersionPrefix + v)
  {
    var t := PackageVersionPrefix + v;
    forall k | 0 <= k < |t|
      ensures t[k] != ' '
    {
      if k >= |PackageVersionPrefix| {
        assert t[k] == v[k - |PackageVersionPrefix|];
      }
    }
  }

  lemma FlagTokensAreArgTokens(f: Flag)
    requires WellFormedFlag(f)
    ensures forall k :: 0 <= k < |FlagTokens(f)| ==> ArgToken(FlagTokens(f)[k])
  {
    match f
    case PackageVersion(v) => PackageVersionIsToken(v);
    case Output(v) => QuoteIsArgToken(v);
    case PackageId(v) => QuoteIsArgToken(v);
    case _ =>
  }

  lemma {:induction false} TokensAreArgTokens(fs: seq<Flag>)
    requires WellFormed(fs)
    ensures forall k :: 0 <= k < |Tokens(fs)| ==> ArgToken(Tokens(fs)[k])
  {
    if fs != [] {
      TokensAreArgTokens(fs[1..]);
      FlagTokensAreArgTokens(fs[0]);
      var head, rest := FlagTokens(fs[0]), Tokens(fs[1..]);
      assert Tokens(fs) == head + rest;
      assert forall k :: 0 <= k < |head + rest| ==> (head + rest)[k] == if k < |head| then head[k] else rest[k - |head|];
    }
  }

  /** The argument string of a quoted path and well-formed flags splits into the quoted path and the flags' tokens. */
  lemma ArgTokensRendered(path: string, fs: seq<Flag>)
    requires '"' !in path
    requires WellFormed(fs)
    ensures ArgTokens(Quote(path) + Render(fs)) == [Quote(path)] + Tokens(fs)
  {
    TokensAreArgTokens(fs);
    QuoteIsArgToken(path);
    var ts := Tokens(fs);
    if ts != [] {
      JoinCons(ts);
    }
    ArgTokensFirst(Quote(path), Render(fs));
    ArgTokensJoin(ts);
  }

  /**
    Round trip: the argument string of a quoted path and well-formed flags reads
    back as exactly that path and those flags, in that order.
   */
  lemma RoundTrip(path: string, fs: seq<Flag>)
    requires '"' !in path
    requires WellFormed(fs)
    ensures ParseArguments(Quote(path) + Render(fs)) == Some(Invocation(path, fs))
  {
    ArgTokensRendered(path, fs);
    ParseFlagsTokens(fs);
    assert Unquote(Quote(path)) == path;
  }
}
