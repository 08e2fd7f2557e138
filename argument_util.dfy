/**
  The nine argument builders of the dotnet CLI wrapper. Each starts from the
  quoted target path and appends optional fragments in a fixed order; a
  nullable parameter of the source is an `Option`.

  Every builder comes with a lemma stating the exact flag sequence that the
  model's reader (`CommandLine.ParseArguments`) recovers from its result, for
  values that reader takes whole.
 */
module ArgumentUtil {
  import opened Wrappers
  import opened Text
  import opened CommandLine

  /** `string.IsNullOrEmpty`. */
  predicate IsNullOrEmpty(s: Option<string>)
  {
    s.None? || s.value == ""
  }

  /** A `bool?` that is present and false: the only value that suppresses build or restore. */
  predicate IsFalse(b: Option<bool>)
  {
    b == Some(false)
  }

  // ---------------------------------------------------------------- builders

  function Run(path: string, framework: Option<string>, configuration: Option<string>, verbosity: Option<string>,
               build: Option<bool>): string
  {
    var argument := Quote(path);
    var argument := argument + (if framework.Some? then " -f " + framework.value else "");
    var argument := argument + (if configuration.Some? then " -c " + configuration.value else "");
    var argument := argument + (if verbosity.Some? then " -v " + verbosity.value else "");
    var argument := argument + (if build.Some? && !build.value then " --no-build" else "");
    argument
  }

  function Restore(path: string, verbosity: Option<string>): string
  {
    var argument := Quote(path);
    var argument := argument + (if verbosity.Some? then " -v " + verbosity.value else "");
    argument
  }

  function Build(path: string, configuration: Option<string>, restore: Option<bool>, verbosity: Option<string>): string
  {
    var argument := Quote(path);
    var argument := argument + (if configuration.Some? then " -c " + configuration.value else "");
    var argument := argument + (if restore.Some? && !restore.value then " --no-restore" else "");
    var argument := argument + (if verbosity.Some? then " -v " + verbosity.value else "");
    argument
  }

  function Test(path: string, restore: Option<bool>, verbosity: Option<string>): string
  {
    var argument := Quote(path);
    var argument := argument + (if restore.Some? && !restore.value then " --no-restore" else "");
    var argument := argument + (if verbosity.Some? then " -v " + verbosity.value else "");
    argument
  }

  function Pack(path: string, version: string, configuration: Option<string>, build: Option<bool>, restore: Option<bool>,
                output: Option<string>, verbosity: Option<string>): string
  {
    var argument := Quote(path);
    var argument := argument + " -p:PackageVersion=" + version;
    var argument := argument + (if configuration.Some? then " -c " + configuration.value else "");
    var argument := argument + (if build.Some? && !build.value then " --no-build" else "");
    var argument := argument + (if restore.Some? && !restore.value then " --no-restore" else "");
    var argument := argument + (if output.Some? then " --output \"" + output.value + "\"" else "");
    var argument := argument + (if verbosity.Some? then " -v " + verbosity.value else "");
    argument
  }

  function AddPackage(path: string, packageId: string, version: Option<string>, restore: Option<bool>,
                      verbosity: Option<string>): string
  {
    var argument := Quote(path) + " package \"" + packageId + "\"";
    var argument := argument + (if version.Some? then " --version " + version.value else "");
    var argument := argument + (if restore.Some? && !restore.value then " --no-restore" else "");
    var argument := argument + (if !IsNullOrEmpty(verbosity) then " -v " + verbosity.value else "");
    argument
  }

  function RemovePackage(path: string, packageId: string, restore: Option<bool>, verbosity: Option<string>): string
  {
    var argument := Quote(path) + " package \"" + packageId + "\"";
    var argument := argument + (if restore.Some? && !restore.value then " --no-restore" else "");
    var argument := argument + (if verbosity.Some? then " -v " + verbosity.value else "");
    argument
  }

  function Clean(path: string, configuration: Option<string>, verbosity: Option<string>): string
  {
    var argument := Quote(path);
    var argument := argument + (if !IsNullOrEmpty(configuration) then " --configuration " + configuration.value else "");
    var argument := argument + (if !IsNullOrEmpty(verbosity) then " -v " + verbosity.value else "");
    argument
  }

  function ListPackages(path: string, outdatedOnly: bool, verbosity: Option<string>): string
  {
    var argument := Quote(path) + " package";
    var argument := argument + (if outdatedOnly then " --outdated" else "");
    var argument := argument + (if !IsNullOrEmpty(verbosity) then " -v " + verbosity.value else "");
    argument
  }

  // ---------------------------------------------------------------- flag sequences

  /** An unquoted value read back whole whenever it is present. */
  predicate Readable(o: Option<string>)
  {
    o.Some? ==> BareValue(o.value)
  }

  /** An unquoted value read back whole whenever a builder skipping null and empty strings emits it. */
  predicate ReadableOrEmpty(o: Option<string>)
  {
    !IsNullOrEmpty(o) ==> BareValue(o.value)
  }

  /** A quoted value read back whole whenever it is present: spaces are allowed, a `"` is not. */
  predicate Quotable(o: Option<string>)
  {
    o.Some? ==> '"' !in o.value
  }

  /** A verbosity that is present but empty: most builders still append ` -v ` with nothing after it. */
  lemma EmptyVerbosity(path: string, packageId: string, version: string, framework: Option<string>,
                       configuration: Option<string>, build: Option<bool>, restore: Option<bool>, output: Option<string>)
    ensures Run(path, framework, configuration, Some(""), None) == Run(path, framework, configuration, None, None) + " -v "
    ensures Restore(path, Some("")) == Quote(path) + " -v "
    ensures Build(path, configuration, restore, Some("")) == Build(path, configuration, restore, None) + " -v "
    ensures Test(path, restore, Some("")) == Test(path, restore, None) + " -v "
    ensures Pack(path, version, configuration, build, restore, output, Some(""))
            == Pack(path, version, configuration, build, restore, output, None) + " -v "
    ensures RemovePackage(path, packageId, restore, Some("")) == RemovePackage(path, packageId, restore, None) + " -v "
  {
  }

  /** `AddPackage`, `Clean` and `ListPackages` test with `string.IsNullOrEmpty`: an empty value appends nothing. */
  lemma EmptyValueSkipped(path: string, packageId: string, configuration: Option<string>, packageVersion: Option<string>,
                          restore: Option<bool>, outdatedOnly: bool)
    ensures AddPackage(path, packageId, packageVersion, restore, Some("")) == AddPackage(path, packageId, packageVersion, restore, None)
    ensures Clean(path, configuration, Some("")) == Clean(path, configuration, None)
    ensures Clean(path, Some(""), Some("")) == Quote(path)
    ensures ListPackages(path, outdatedOnly, Some("")) == ListPackages(path, outdatedOnly, None)
  {
  }

  /** A `bool?` that is null and one that is true both leave `--no-build` and `--no-restore` out. */
  lemma UnsetIsTrue(path: string, packageId: string, version: string, framework: Option<string>,
                    configuration: Option<string>, packageVersion: Option<string>, output: Option<string>,
                    verbosity: Option<string>)
    ensures Run(path, framework, configuration, verbosity, None) == Run(path, framework, configuration, verbosity, Some(true))
    ensures Build(path, configuration, None, verbosity) == Build(path, configuration, Some(true), verbosity)
    ensures Test(path, None, verbosity) == Test(path, Some(true), verbosity)
    ensures Pack(path, version, configuration, None, None, output, verbosity)
            == Pack(path, version, configuration, Some(true), Some(true), output, verbosity)
    ensures AddPackage(path, packageId, packageVersion, None, verbosity) == AddPackage(path, packageId, packageVersion, Some(true), verbosity)
    ensures RemovePackage(path, packageId, None, verbosity) == RemovePackage(path, packageId, Some(true), verbosity)
  {
  }

  /** The value of an option that is present, and the empty string otherwise. */
  function Value(o: Option<string>): string
  {
    if o.Some? then o.value else ""
  }

  /** The step shared by the rendering lemmas: ` {name} {value}` appended when `present`. */
  lemma ExtendIfValue(path: string, fs: seq<Flag>, present: bool, f: Flag, lit: string, v: string, argument: string)
    requires argument == Quote(path) + Render(fs)
    requires Fragment(f) == lit + v
    ensures argument + (if present then lit + v else "") == Quote(path) + Render(fs + (if present then [f] else []))
  {
    if present {
      Extend(path, fs, f, argument);
    } else {
      assert fs + [] == fs;
    }
  }

  /** The same step for a fragment without a value. */
  lemma ExtendIfBare(path: string, fs: seq<Flag>, present: bool, f: Flag, lit: string, argument: string)
    requires argument == Quote(path) + Render(fs)
    requires Fragment(f) == lit
    ensures argument + (if present then lit else "") == Quote(path) + Render(fs + (if present then [f] else []))
  {
    if present {
      Extend(path, fs, f, argument);
    } else {
      assert fs + [] == fs;
    }
  }

  /** The same step for a fragment whose value is quoted. */
  lemma ExtendIfQuoted(path: string, fs: seq<Flag>, present: bool, f: Flag, lit: string, v: string, argument: string)
    requires argument == Quote(path) + Render(fs)
    requires Fragment(f) == lit + v + "\""
    ensures argument + (if present then lit + v + "\"" else "") == Quote(path) + Render(fs + (if present then [f] else []))
  {
    if present {
      Extend(path, fs, f, argument);
    } else {
      assert fs + [] == fs;
    }
  }

  /** A builder's fixed start stays in front of whatever follows it. */
  lemma PrefixOfRendered(path: string, base: seq<Flag>, rest: seq<Flag>)
    ensures Quote(path) + Render(base) <= Quote(path) + Render(base + rest)
  {
    RenderAppend(base, rest);
    Associate(Quote(path), Render(base), Render(rest));
  }

  /** Regrouping a concatenation, kept as a lemma so that the sequence theory stays out of the callers' proofs. */
  lemma Associate(a: string, b: string, c: string)
    ensures a + b + c == a + (b + c)
  {
  }

  /** The fixed start of the package-reference builders. */
  lemma PackageReference(path: string, packageId: string)
    ensures Quote(path) + " package \"" + packageId + "\"" == Quote(path) + Render([PackageVerb, PackageId(packageId)])
  {
    assert Quote(path) + Render([]) == Quote(path);
    Extend(path, [], PackageVerb, Quote(path));
    Extend(path, [PackageVerb], PackageId(packageId), Quote(path) + Fragment(PackageVerb));
    assert [] + [PackageVerb] == [PackageVerb];
    assert [PackageVerb] + [PackageId(packageId)] == [PackageVerb, PackageId(packageId)];
  }

  // ---------------------------------------------------------------- what the reader recovers

  /** The flags `Run` appends after the quoted path, in order. */
  function RunFlags(framework: Option<string>, configuration: Option<string>, verbosity: Option<string>, build: Option<bool>): seq<Flag>
  {
    (if framework.Some? then [Framework(framework.value)] else [])
    + (if configuration.Some? then [Configuration(configuration.value)] else [])
    + (if verbosity.Some? then [Verbosity(verbosity.value)] else [])
    + (if IsFalse(build) then [NoBuild] else [])
  }

  /** `Run` is the quoted path followed by the fragments of `RunFlags`, for every input. */
  lemma RunRenders(path: string, framework: Option<string>, configuration: Option<string>, verbosity: Option<string>, build: Option<bool>)
    ensures Run(path, framework, configuration, verbosity, build) == Quote(path) + Render(RunFlags(framework, configuration, verbosity, build))
  {
    var a0 := Quote(path);
    var fs0: seq<Flag> := [];
    var a1 := a0 + (if framework.Some? then " -f " + framework.value else "");
    var fs1 := fs0 + (if framework.Some? then [Framework(framework.value)] else []);
    var a2 := a1 + (if configuration.Some? then " -c " + configuration.value else "");
    var fs2 := fs1 + (if configuration.Some? then [Configuration(configuration.value)] else []);
    var a3 := a2 + (if verbosity.Some? then " -v " + verbosity.value else "");
    var fs3 := fs2 + (if verbosity.Some? then [Verbosity(verbosity.value)] else []);
    var a4 := a3 + (if build.Some? && !build.value then " --no-build" else "");
    var fs4 := fs3 + (if IsFalse(build) then [NoBuild] else []);
    assert a4 == Quote(path) + Render(fs4) by {
      assert a0 == Quote(path) + Render(fs0) by {
        assert Quote(path) + Render([]) == Quote(path);
      }
      assert a1 == Quote(path) + Render(fs1) by {
        ExtendIfValue(path, fs0, framework.Some?, Framework(Value(framework)), " -f ", Value(framework), a0);
      }
      assert a2 == Quote(path) + Render(fs2) by {
        ExtendIfValue(path, fs1, configuration.Some?, Configuration(Value(configuration)), " -c ", Value(configuration), a1);
      }
      assert a3 == Quote(path) + Render(fs3) by {
        ExtendIfValue(path, fs2, verbosity.Some?, Verbosity(Value(verbosity)), " -v ", Value(verbosity), a2);
      }
      assert a4 == Quote(path) + Render(fs4) by {
        ExtendIfBare(path, fs3, IsFalse(build), NoBuild, " --no-build", a3);
      }
    }
    assert fs4 == RunFlags(framework, configuration, verbosity, build);
  }

  /** Every `Run` argument string starts with the quoted path. */
  lemma RunStartsWith(path: string, framework: Option<string>, configuration: Option<string>, verbosity: Option<string>, build: Option<bool>)
    ensures Quote(path) <= Run(path, framework, configuration, verbosity, build)
  {
    RunRenders(path, framework, configuration, verbosity, build);
  }

  /** `Run`: the reader recovers the path and framework, configuration, verbosity, then `--no-build`, each exactly when set. */
  lemma RunReadsBack(path: string, framework: Option<string>, configuration: Option<string>, verbosity: Option<string>, build: Option<bool>)
    requires '"' !in path
    requires Readable(framework) && Readable(configuration) && Readable(verbosity)
    ensures ParseArguments(Run(path, framework, configuration, verbosity, build)) == Some(Invocation(path, RunFlags(framework, configuration, verbosity, build)))
  {
    RunRenders(path, framework, configuration, verbosity, build);
    RoundTrip(path, RunFlags(framework, configuration, verbosity, build));
  }

  /** The flags `Restore` appends after the quoted path, in order. */
  function RestoreFlags(verbosity: Option<string>): seq<Flag>
  {
    (if verbosity.Some? then [Verbosity(verbosity.value)] else [])
  }

  /** `Restore` is the quoted path followed by the fragments of `RestoreFlags`, for every input. */
  lemma RestoreRenders(path: string, verbosity: Option<string>)
    ensures Restore(path, verbosity) == Quote(path) + Render(RestoreFlags(verbosity))
  {
    var a0 := Quote(path);
    var fs0: seq<Flag> := [];
    var a1 := a0 + (if verbosity.Some? then " -v " + verbosity.value else "");
    var fs1 := fs0 + (if verbosity.Some? then [Verbosity(verbosity.value)] else []);
    assert a0 == Quote(path) + Render(fs0) by {
      assert Quote(path) + Render([]) == Quote(path);
    }
    assert a1 == Quote(path) + Render(fs1) by {
      ExtendIfValue(path, fs0, verbosity.Some?, Verbosity(Value(verbosity)), " -v ", Value(verbosity), a0);
    }
    assert fs1 == RestoreFlags(verbosity);
  }

  /** Every `Restore` argument string starts with the quoted path. */
  lemma RestoreStartsWith(path: string, verbosity: Option<string>)
    ensures Quote(path) <= Restore(path, verbosity)
  {
    RestoreRenders(path, verbosity);
  }

  /** `Restore`: the reader recovers the path and verbosity exactly when set. */
  lemma RestoreReadsBack(path: string, verbosity: Option<string>)
    requires '"' !in path
    requires Readable(verbosity)
    ensures ParseArguments(Restore(path, verbosity)) == Some(Invocation(path, RestoreFlags(verbosity)))
  {
    RestoreRenders(path, verbosity);
    RoundTrip(path, RestoreFlags(verbosity));
  }

  /** The flags `Build` appends after the quoted path, in order. */
  function BuildFlags(configuration: Option<string>, restore: Option<bool>, verbosity: Option<string>): seq<Flag>
  {
    (if configuration.Some? then [Configuration(configuration.value)] else [])
    + (if IsFalse(restore) then [NoRestore] else [])
    + (if verbosity.Some? then [Verbosity(verbosity.value)] else [])
  }

  /** `Build` is the quoted path followed by the fragments of `BuildFlags`, for every input. */
  lemma BuildRenders(path: string, configuration: Option<string>, restore: Option<bool>, verbosity: Option<string>)
    ensures Build(path, configuration, restore, verbosity) == Quote(path) + Render(BuildFlags(configuration, restore, verbosity))
  {
    var a0 := Quote(path);
    var fs0: seq<Flag> := [];
    var a1 := a0 + (if configuration.Some? then " -c " + configuration.value else "");
    var fs1 := fs0 + (if configuration.Some? then [Configuration(configuration.value)] else []);
    var a2 := a1 + (if restore.Some? && !restore.value then " --no-restore" else "");
    var fs2 := fs1 + (if IsFalse(restore) then [NoRestore] else []);
    var a3 := a2 + (if verbosity.Some? then " -v " + verbosity.value else "");
    var fs3 := fs2 + (if verbosity.Some? then [Verbosity(verbosity.value)] else []);
    assert a3 == Quote(path) + Render(fs3) by {
      assert a0 == Quote(path) + Render(fs0) by {
        assert Quote(path) + Render([]) == Quote(path);
      }
      assert a1 == Quote(path) + Render(fs1) by {
        ExtendIfValue(path, fs0, configuration.Some?, Configuration(Value(configuration)), " -c ", Value(configuration), a0);
      }
      assert a2 == Quote(path) + Render(fs2) by {
        ExtendIfBare(path, fs1, IsFalse(restore), NoRestore, " --no-restore", a1);
      }
      assert a3 == Quote(path) + Render(fs3) by {
        ExtendIfValue(path, fs2, verbosity.Some?, Verbosity(Value(verbosity)), " -v ", Value(verbosity), a2);
      }
    }
    assert fs3 == BuildFlags(configuration, restore, verbosity);
  }

  /** Every `Build` argument string starts with the quoted path. */
  lemma BuildStartsWith(path: string, configuration: Option<string>, restore: Option<bool>, verbosity: Option<string>)
    ensures Quote(path) <= Build(path, configuration, restore, verbosity)
  {
    BuildRenders(path, configuration, restore, verbosity);
  }

  /** `Build`: the reader recovers the path and configuration, `--no-restore`, then verbosity, each exactly when set. */
  lemma BuildReadsBack(path: string, configuration: Option<string>, restore: Option<bool>, verbosity: Option<string>)
    requires '"' !in path
    requires Readable(configuration) && Readable(verbosity)
    ensures ParseArguments(Build(path, configuration, restore, verbosity)) == Some(Invocation(path, BuildFlags(configuration, restore, verbosity)))
  {
    BuildRenders(path, configuration, restore, verbosity);
    RoundTrip(path, BuildFlags(configuration, restore, verbosity));
  }

  /** The flags `Test` appends after the quoted path, in order. */
  function TestFlags(restore: Option<bool>, verbosity: Option<string>): seq<Flag>
  {
    (if IsFalse(restore) then [NoRestore] else [])
    + (if verbosity.Some? then [Verbosity(verbosity.value)] else [])
  }

  /** `Test` is the quoted path followed by the fragments of `TestFlags`, for every input. */
  lemma TestRenders(path: string, restore: Option<bool>, verbosity: Option<string>)
    ensures Test(path, restore, verbosity) == Quote(path) + Render(TestFlags(restore, verbosity))
  {
    var a0 := Quote(path);
    var fs0: seq<Flag> := [];
    var a1 := a0 + (if restore.Some? && !restore.value then " --no-restore" else "");
    var fs1 := fs0 + (if IsFalse(restore) then [NoRestore] else []);
    var a2 := a1 + (if verbosity.Some? then " -v " + verbosity.value else "");
    var fs2 := fs1 + (if verbosity.Some? then [Verbosity(verbosity.value)] else []);
    assert a2 == Quote(path) + Render(fs2) by {
      assert a0 == Quote(path) + Render(fs0) by {
        assert Quote(path) + Render([]) == Quote(path);
      }
      assert a1 == Quote(path) + Render(fs1) by {
        ExtendIfBare(path, fs0, IsFalse(restore), NoRestore, " --no-restore", a0);
      }
      assert a2 == Quote(path) + Render(fs2) by {
        ExtendIfValue(path, fs1, verbosity.Some?, Verbosity(Value(verbosity)), " -v ", Value(verbosity), a1);
      }
    }
    assert fs2 == TestFlags(restore, verbosity);
  }

  /** Every `Test` argument string starts with the quoted path. */
  lemma TestStartsWith(path: string, restore: Option<bool>, verbosity: Option<string>)
    ensures Quote(path) <= Test(path, restore, verbosity)
  {
    TestRenders(path, restore, verbosity);
  }

  /** `Test`: the reader recovers the path and `--no-restore`, then verbosity, each exactly when set. */
  lemma TestReadsBack(path: string, restore: Option<bool>, verbosity: Option<string>)
    requires '"' !in path
    requires Readable(verbosity)
    ensures ParseArguments(Test(path, restore, verbosity)) == Some(Invocation(path, TestFlags(restore, verbosity)))
  {
    TestRenders(path, restore, verbosity);
    RoundTrip(path, TestFlags(restore, verbosity));
  }

  /** The flags `Pack` appends after the quoted path, in order. */
  function PackFlags(version: string, configuration: Option<string>, build: Option<bool>, restore: Option<bool>, output: Option<string>, verbosity: Option<string>): seq<Flag>
  {
    [PackageVersion(version)]
    + (if configuration.Some? then [Configuration(configuration.value)] else [])
    + (if IsFalse(build) then [NoBuild] else [])
    + (if IsFalse(restore) then [NoRestore] else [])
    + (if output.Some? then [Output(output.value)] else [])
    + (if verbosity.Some? then [Verbosity(verbosity.value)] else [])
  }

  /** `Pack` is the quoted path followed by the fragments of `PackFlags`, for every input. */
  lemma PackRenders(path: string, version: string, configuration: Option<string>, build: Option<bool>, restore: Option<bool>, output: Option<string>, verbosity: Option<string>)
    ensures Pack(path, version, configuration, build, restore, output, verbosity) == Quote(path) + Render(PackFlags(version, configuration, build, restore, output, verbosity))
  {
    var a0 := Quote(path) + " -p:PackageVersion=" + version;
    var fs0 := [PackageVersion(version)];
    var a1 := a0 + (if configuration.Some? then " -c " + configuration.value else "");
    var fs1 := fs0 + (if configuration.Some? then [Configuration(configuration.value)] else []);
    var a2 := a1 + (if build.Some? && !build.value then " --no-build" else "");
    var fs2 := fs1 + (if IsFalse(build) then [NoBuild] else []);
    var a3 := a2 + (if restore.Some? && !restore.value then " --no-restore" else "");
    var fs3 := fs2 + (if IsFalse(restore) then [NoRestore] else []);
    var a4 := a3 + (if output.Some? then " --output \"" + output.value + "\"" else "");
    var fs4 := fs3 + (if output.Some? then [Output(output.value)] else []);
    var a5 := a4 + (if verbosity.Some? then " -v " + verbosity.value else "");
    var fs5 := fs4 + (if verbosity.Some? then [Verbosity(verbosity.value)] else []);
    assert a5 == Quote(path) + Render(fs5) by {
      assert a0 == Quote(path) + Render(fs0) by {
        assert Quote(path) + Render([]) == Quote(path);
        assert Quote(path) + " -p:PackageVersion=" + version == Quote(path) + (" -p:PackageVersion=" + version);
        Extend(path, [], PackageVersion(version), Quote(path));
        assert [] + fs0 == fs0;
      }
      assert a1 == Quote(path) + Render(fs1) by {
        ExtendIfValue(path, fs0, configuration.Some?, Configuration(Value(configuration)), " -c ", Value(configuration), a0);
      }
      assert a2 == Quote(path) + Render(fs2) by {
        ExtendIfBare(path, fs1, IsFalse(build), NoBuild, " --no-build", a1);
      }
      assert a3 == Quote(path) + Render(fs3) by {
        ExtendIfBare(path, fs2, IsFalse(restore), NoRestore, " --no-restore", a2);
      }
      assert a4 == Quote(path) + Render(fs4) by {
        ExtendIfQuoted(path, fs3, output.Some?, Output(Value(output)), " --output \"", Value(output), a3);
      }
      assert a5 == Quote(path) + Render(fs5) by {
        ExtendIfValue(path, fs4, verbosity.Some?, Verbosity(Value(verbosity)), " -v ", Value(verbosity), a4);
      }
    }
    assert fs5 == PackFlags(version, configuration, build, restore, output, verbosity);
  }

  /** Every `Pack` argument string starts with the quoted path and the package version. */
  lemma PackStartsWith(path: string, version: string, configuration: Option<string>, build: Option<bool>, restore: Option<bool>, output: Option<string>, verbosity: Option<string>)
    ensures Quote(path) + " -p:PackageVersion=" + version <= Pack(path, version, configuration, build, restore, output, verbosity)
  {
    PackRenders(path, version, configuration, build, restore, output, verbosity);
    PrefixOfRendered(path, [PackageVersion(version)], PackFlags(version, configuration, build, restore, output, verbosity)[1..]);
    assert [PackageVersion(version)] + PackFlags(version, configuration, build, restore, output, verbosity)[1..] == PackFlags(version, configuration, build, restore, output, verbosity);
    assert Quote(path) + Render([]) == Quote(path);
    assert Quote(path) + " -p:PackageVersion=" + version == Quote(path) + (" -p:PackageVersion=" + version);
    Extend(path, [], PackageVersion(version), Quote(path));
    assert [] + [PackageVersion(version)] == [PackageVersion(version)];
  }

  /** `Pack`: the reader recovers the path and the package version always, then configuration, `--no-build`, `--no-restore`, the quoted output directory and verbosity, each exactly when set. */
  lemma PackReadsBack(path: string, version: string, configuration: Option<string>, build: Option<bool>, restore: Option<bool>, output: Option<string>, verbosity: Option<string>)
    requires '"' !in path
    requires ' ' !in version
    requires Readable(configuration) && Quotable(output) && Readable(verbosity)
    ensures ParseArguments(Pack(path, version, configuration, build, restore, output, verbosity)) == Some(Invocation(path, PackFlags(version, configuration, build, restore, output, verbosity)))
  {
    PackRenders(path, version, configuration, build, restore, output, verbosity);
    RoundTrip(path, PackFlags(version, configuration, build, restore, output, verbosity));
  }

  /** The flags `AddPackage` appends after the quoted path, in order. */
  function AddPackageFlags(packageId: string, version: Option<string>, restore: Option<bool>, verbosity: Option<string>): seq<Flag>
  {
    [PackageVerb, PackageId(packageId)]
    + (if version.Some? then [Version(version.value)] else [])
    + (if IsFalse(restore) then [NoRestore] else [])
    + (if !IsNullOrEmpty(verbosity) then [Verbosity(verbosity.value)] else [])
  }

  /** `AddPackage` is the quoted path followed by the fragments of `AddPackageFlags`, for every input. */
  lemma AddPackageRenders(path: string, packageId: string, version: Option<string>, restore: Option<bool>, verbosity: Option<string>)
    ensures AddPackage(path, packageId, version, restore, verbosity) == Quote(path) + Render(AddPackageFlags(packageId, version, restore, verbosity))
  {
    var a0 := Quote(path) + " package \"" + packageId + "\"";
    var fs0 := [PackageVerb, PackageId(packageId)];
    var a1 := a0 + (if version.Some? then " --version " + version.value else "");
    var fs1 := fs0 + (if version.Some? then [Version(version.value)] else []);
    var a2 := a1 + (if restore.Some? && !restore.value then " --no-restore" else "");
    var fs2 := fs1 + (if IsFalse(restore) then [NoRestore] else []);
    var a3 := a2 + (if !IsNullOrEmpty(verbosity) then " -v " + verbosity.value else "");
    var fs3 := fs2 + (if !IsNullOrEmpty(verbosity) then [Verbosity(verbosity.value)] else []);
    assert a3 == Quote(path) + Render(fs3) by {
      assert a0 == Quote(path) + Render(fs0) by {
        assert Quote(path) + Render([]) == Quote(path);
        PackageReference(path, packageId);
      }
      assert a1 == Quote(path) + Render(fs1) by {
        ExtendIfValue(path, fs0, version.Some?, Version(Value(version)), " --version ", Value(version), a0);
      }
      assert a2 == Quote(path) + Render(fs2) by {
        ExtendIfBare(path, fs1, IsFalse(restore), NoRestore, " --no-restore", a1);
      }
      assert a3 == Quote(path) + Render(fs3) by {
        ExtendIfValue(path, fs2, !IsNullOrEmpty(verbosity), Verbosity(Value(verbosity)), " -v ", Value(verbosity), a2);
      }
    }
    assert fs3 == AddPackageFlags(packageId, version, restore, verbosity);
  }

  /** Every `AddPackage` argument string starts with the quoted path, `package` and the quoted package id. */
  lemma AddPackageStartsWith(path: string, packageId: string, version: Option<string>, restore: Option<bool>, verbosity: Option<string>)
    ensures Quote(path) + " package \"" + packageId + "\"" <= AddPackage(path, packageId, version, restore, verbosity)
  {
    AddPackageRenders(path, packageId, version, restore, verbosity);
    PrefixOfRendered(path, [PackageVerb, PackageId(packageId)], AddPackageFlags(packageId, version, restore, verbosity)[2..]);
    assert [PackageVerb, PackageId(packageId)] + AddPackageFlags(packageId, version, restore, verbosity)[2..] == AddPackageFlags(packageId, version, restore, verbosity);
    PackageReference(path, packageId);
  }

  /** `AddPackage`: the reader recovers the path and `package` and the quoted package id, then version and `--no-restore` exactly when set, and verbosity exactly when neither null nor empty. */
  lemma AddPackageReadsBack(path: string, packageId: string, version: Option<string>, restore: Option<bool>, verbosity: Option<string>)
    requires '"' !in path
    requires '"' !in packageId
    requires Readable(version) && ReadableOrEmpty(verbosity)
    ensures ParseArguments(AddPackage(path, packageId, version, restore, verbosity)) == Some(Invocation(path, AddPackageFlags(packageId, version, restore, verbosity)))
  {
    AddPackageRenders(path, packageId, version, restore, verbosity);
    RoundTrip(path, AddPackageFlags(packageId, version, restore, verbosity));
  }

  /** The flags `RemovePackage` appends after the quoted path, in order. */
  function RemovePackageFlags(packageId: string, restore: Option<bool>, verbosity: Option<string>): seq<Flag>
  {
    [PackageVerb, PackageId(packageId)]
    + (if IsFalse(restore) then [NoRestore] else [])
    + (if verbosity.Some? then [Verbosity(verbosity.value)] else [])
  }

  /** `RemovePackage` is the quoted path followed by the fragments of `RemovePackageFlags`, for every input. */
  lemma RemovePackageRenders(path: string, packageId: string, restore: Option<bool>, verbosity: Option<string>)
    ensures RemovePackage(path, packageId, restore, verbosity) == Quote(path) + Render(RemovePackageFlags(packageId, restore, verbosity))
  {
    var a0 := Quote(path) + " package \"" + packageId + "\"";
    var fs0 := [PackageVerb, PackageId(packageId)];
    var a1 := a0 + (if restore.Some? && !restore.value then " --no-restore" else "");
    var fs1 := fs0 + (if IsFalse(restore) then [NoRestore] else []);
    var a2 := a1 + (if verbosity.Some? then " -v " + verbosity.value else "");
    var fs2 := fs1 + (if verbosity.Some? then [Verbosity(verbosity.value)] else []);
    assert a2 == Quote(path) + Render(fs2) by {
      assert a0 == Quote(path) + Render(fs0) by {
        assert Quote(path) + Render([]) == Quote(path);
        PackageReference(path, packageId);
      }
      assert a1 == Quote(path) + Render(fs1) by {
        ExtendIfBare(path, fs0, IsFalse(restore), NoRestore, " --no-restore", a0);
      }
      assert a2 == Quote(path) + Render(fs2) by {
        ExtendIfValue(path, fs1, verbosity.Some?, Verbosity(Value(verbosity)), " -v ", Value(verbosity), a1);
      }
    }
    assert fs2 == RemovePackageFlags(packageId, restore, verbosity);
  }

  /** Every `RemovePackage` argument string starts with the quoted path, `package` and the quoted package id. */
  lemma RemovePackageStartsWith(path: string, packageId: string, restore: Option<bool>, verbosity: Option<string>)
    ensures Quote(path) + " package \"" + packageId + "\"" <= RemovePackage(path, packageId, restore, verbosity)
  {
    RemovePackageRenders(path, packageId, restore, verbosity);
    PrefixOfRendered(path, [PackageVerb, PackageId(packageId)], RemovePackageFlags(packageId, restore, verbosity)[2..]);
    assert [PackageVerb, PackageId(packageId)] + RemovePackageFlags(packageId, restore, verbosity)[2..] == RemovePackageFlags(packageId, restore, verbosity);
    PackageReference(path, packageId);
  }

  /** `RemovePackage`: the reader recovers the path and `package` and the quoted package id, then `--no-restore` and verbosity, each exactly when set. */
  lemma RemovePackageReadsBack(path: string, packageId: string, restore: Option<bool>, verbosity: Option<string>)
    requires '"' !in path
    requires '"' !in packageId
    requires Readable(verbosity)
    ensures ParseArguments(RemovePackage(path, packageId, restore, verbosity)) == Some(Invocation(path, RemovePackageFlags(packageId, restore, verbosity)))
  {
    RemovePackageRenders(path, packageId, restore, verbosity);
    RoundTrip(path, RemovePackageFlags(packageId, restore, verbosity));
  }

  /** The flags `Clean` appends after the quoted path, in order. */
  function CleanFlags(configuration: Option<string>, verbosity: Option<string>): seq<Flag>
  {
    (if !IsNullOrEmpty(configuration) then [LongConfiguration(configuration.value)] else [])
    + (if !IsNullOrEmpty(verbosity) then [Verbosity(verbosity.value)] else [])
  }

  /** `Clean` is the quoted path followed by the fragments of `CleanFlags`, for every input. */
  lemma CleanRenders(path: string, configuration: Option<string>, verbosity: Option<string>)
    ensures Clean(path, configuration, verbosity) == Quote(path) + Render(CleanFlags(configuration, verbosity))
  {
    var a0 := Quote(path);
    var fs0: seq<Flag> := [];
    var a1 := a0 + (if !IsNullOrEmpty(configuration) then " --configuration " + configuration.value else "");
    var fs1 := fs0 + (if !IsNullOrEmpty(configuration) then [LongConfiguration(configuration.value)] else []);
    var a2 := a1 + (if !IsNullOrEmpty(verbosity) then " -v " + verbosity.value else "");
    var fs2 := fs1 + (if !IsNullOrEmpty(verbosity) then [Verbosity(verbosity.value)] else []);
    assert a2 == Quote(path) + Render(fs2) by {
      assert a0 == Quote(path) + Render(fs0) by {
        assert Quote(path) + Render([]) == Quote(path);
      }
      assert a1 == Quote(path) + Render(fs1) by {
        ExtendIfValue(path, fs0, !IsNullOrEmpty(configuration), LongConfiguration(Value(configuration)), " --configuration ", Value(configuration), a0);
      }
      assert a2 == Quote(path) + Render(fs2) by {
        ExtendIfValue(path, fs1, !IsNullOrEmpty(verbosity), Verbosity(Value(verbosity)), " -v ", Value(verbosity), a1);
      }
    }
    assert fs2 == CleanFlags(configuration, verbosity);
  }

  /** Every `Clean` argument string starts with the quoted path. */
  lemma CleanStartsWith(path: string, configuration: Option<string>, verbosity: Option<string>)
    ensures Quote(path) <= Clean(path, configuration, verbosity)
  {
    CleanRenders(path, configuration, verbosity);
  }

  /** `Clean`: the reader recovers the path and `--configuration` and verbosity, each exactly when neither null nor empty. */
  lemma CleanReadsBack(path: string, configuration: Option<string>, verbosity: Option<string>)
    requires '"' !in path
    requires ReadableOrEmpty(configuration) && ReadableOrEmpty(verbosity)
    ensures ParseArguments(Clean(path, configuration, verbosity)) == Some(Invocation(path, CleanFlags(configuration, verbosity)))
  {
    CleanRenders(path, configuration, verbosity);
    RoundTrip(path, CleanFlags(configuration, verbosity));
  }

  /** The flags `ListPackages` appends after the quoted path, in order. */
  function ListPackagesFlags(outdatedOnly: bool, verbosity: Option<string>): seq<Flag>
  {
    [PackageVerb]
    + (if outdatedOnly then [Outdated] else [])
    + (if !IsNullOrEmpty(verbosity) then [Verbosity(verbosity.value)] else [])
  }

  /** `ListPackages` is the quoted path followed by the fragments of `ListPackagesFlags`, for every input. */
  lemma ListPackagesRenders(path: string, outdatedOnly: bool, verbosity: Option<string>)
    ensures ListPackages(path, outdatedOnly, verbosity) == Quote(path) + Render(ListPackagesFlags(outdatedOnly, verbosity))
  {
    var a0 := Quote(path) + " package";
    var fs0 := [PackageVerb];
    var a1 := a0 + (if outdatedOnly then " --outdated" else "");
    var fs1 := fs0 + (if outdatedOnly then [Outdated] else []);
    var a2 := a1 + (if !IsNullOrEmpty(verbosity) then " -v " + verbosity.value else "");
    var fs2 := fs1 + (if !IsNullOrEmpty(verbosity) then [Verbosity(verbosity.value)] else []);
    assert a2 == Quote(path) + Render(fs2) by {
      assert a0 == Quote(path) + Render(fs0) by {
        assert Quote(path) + Render([]) == Quote(path);
        Extend(path, [], PackageVerb, Quote(path));
        assert [] + fs0 == fs0;
      }
      assert a1 == Quote(path) + Render(fs1) by {
        ExtendIfBare(path, fs0, outdatedOnly, Outdated, " --outdated", a0);
      }
      assert a2 == Quote(path) + Render(fs2) by {
        ExtendIfValue(path, fs1, !IsNullOrEmpty(verbosity), Verbosity(Value(verbosity)), " -v ", Value(verbosity), a1);
      }
    }
    assert fs2 == ListPackagesFlags(outdatedOnly, verbosity);
  }

  /** Every `ListPackages` argument string starts with the quoted path and `package`. */
  lemma ListPackagesStartsWith(path: string, outdatedOnly: bool, verbosity: Option<string>)
    ensures Quote(path) + " package" <= ListPackages(path, outdatedOnly, verbosity)
  {
    ListPackagesRenders(path, outdatedOnly, verbosity);
    PrefixOfRendered(path, [PackageVerb], ListPackagesFlags(outdatedOnly, verbosity)[1..]);
    assert [PackageVerb] + ListPackagesFlags(outdatedOnly, verbosity)[1..] == ListPackagesFlags(outdatedOnly, verbosity);
    assert Quote(path) + Render([]) == Quote(path);
    Extend(path, [], PackageVerb, Quote(path));
    assert [] + [PackageVerb] == [PackageVerb];
  }

  /** `ListPackages`: the reader recovers the path and `package`, then `--outdated` when asked, and verbosity exactly when neither null nor empty. */
  lemma ListPackagesReadsBack(path: string, outdatedOnly: bool, verbosity: Option<string>)
    requires '"' !in path
    requires ReadableOrEmpty(verbosity)
    ensures ParseArguments(ListPackages(path, outdatedOnly, verbosity)) == Some(Invocation(path, ListPackagesFlags(outdatedOnly, verbosity)))
  {
    ListPackagesRenders(path, outdatedOnly, verbosity);
    RoundTrip(path, ListPackagesFlags(outdatedOnly, verbosity));
  }
}
