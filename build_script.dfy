/** The repository's own build script (build.rs), which bundles the
    repository's `assets` directory for its examples. It carries its own
    copies of `Compression` and of the configuration, which differ from the
    bundler crate's: the compression names keep their capitals and there is
    no `out-dir`. Its `zip_dir` is the same function as the bundler crate's,
    except that its `Xor` is the one of src/xor.rs, brought in by `include!`. */
module BuildScript {
  // `Common` and `ZipModel` are not opened: their `None` and `Bzip2` would
  // clash with the constructors of `Compression`.
  import Common
  import ZipModel
  import Toml
  import opened DirBundler

  /** build.rs's `Compression`: no renaming, so the configuration file
      names the modes as the variants are spelled. */
  datatype Compression = None | Bzip2 | Deflate

  function CompressionName(c: Compression): string
  {
    match c
    case None => "None"
    case Bzip2 => "Bzip2"
    case Deflate => "Deflate"
  }

  const CompressionNames: set<string> := {"None", "Bzip2", "Deflate"}

  /** Deserialising a `Compression`: exactly the three capitalised names
      are accepted, each as the mode it names. */
  function DecodeCompression(v: Toml.TomlValue): (r: Common.Option<Compression>)
    ensures r.Some? <==> v.TomlString? && v.s in CompressionNames
    ensures r.Some? ==> CompressionName(r.value) == v.s
  {
    if v == Toml.TomlString("None") then Common.Some(None)
    else if v == Toml.TomlString("Bzip2") then Common.Some(Bzip2)
    else if v == Toml.TomlString("Deflate") then Common.Some(Deflate)
    else Common.None
  }

  /** Every mode reads back from its own name. */
  lemma CompressionNameRoundTrip(c: Compression)
    ensures DecodeCompression(Toml.TomlString(CompressionName(c))) == Common.Some(c)
  {
  }

  /** The lower-case names the bundler crate accepts are refused here. */
  lemma LowerCaseNamesRejected(name: string)
    requires name in {"none", "bzip2", "deflate"}
    ensures DecodeCompression(Toml.TomlString(name)) == Common.None
  {
    assert name[0] in {'n', 'b', 'd'};
  }

  /** `Into<CompressionMethod>`, the same mapping as the bundler crate's. */
  function IntoMethod(c: Compression): (m: ZipModel.CompressionMethod)
    ensures m == ZipModel.Stored <==> c == None
  {
    match c
    case None => ZipModel.Stored
    case Bzip2 => ZipModel.Bzip2
    case Deflate => ZipModel.Deflated
  }

  lemma IntoMethodInjective(c: Compression, d: Compression)
    ensures IntoMethod(c) == IntoMethod(d) <==> c == d
    ensures IntoMethod(c) == ZipModel.Stored <==> c == None
  {
  }

  /** build.rs's `AssetBundlerConfig`. */
  datatype AssetBundlerConfig = AssetBundlerConfig(
    fileName: string,
    compression: Compression,
    obfuscate: bool,
    bundleForDebugBuilds: bool)

  function DefaultConfig(): (c: AssetBundlerConfig)
    ensures c.fileName == "assets" && c.compression == Bzip2
    ensures !c.obfuscate && !c.bundleForDebugBuilds
  {
    AssetBundlerConfig("assets", Bzip2, false, false)
  }

  const KnownKeys: set<string> := {"file-name", "compression", "obfuscate", "bundle-for-debug-builds"}

  predicate FieldAccepted(key: string, v: Toml.TomlValue)
  {
    if key == "file-name" then v.TomlString?
    else if key == "obfuscate" || key == "bundle-for-debug-builds" then v.TomlBool?
    else if key == "compression" then DecodeCompression(v).Some?
    else false
  }

  ghost predicate TakenFrom(t: Toml.Table, c: AssetBundlerConfig)
  {
    && (if "file-name" in t then t["file-name"] == Toml.TomlString(c.fileName)
        else c.fileName == DefaultConfig().fileName)
    && (if "compression" in t then t["compression"] == Toml.TomlString(CompressionName(c.compression))
        else c.compression == DefaultConfig().compression)
    && (if "obfuscate" in t then t["obfuscate"] == Toml.TomlBool(c.obfuscate)
        else c.obfuscate == DefaultConfig().obfuscate)
    && (if "bundle-for-debug-builds" in t then t["bundle-for-debug-builds"] == Toml.TomlBool(c.bundleForDebugBuilds)
        else c.bundleForDebugBuilds == DefaultConfig().bundleForDebugBuilds)
  }

  /** Deserialising the table: accepted exactly when every key is one of
      the four known ones with a value of the right type; then each field
      comes from the table or, when absent, from the default. */
  function DecodeConfig(t: Toml.Table): (r: Common.Option<AssetBundlerConfig>)
    ensures r.Some? <==> forall k | k in t :: FieldAccepted(k, t[k])
    ensures r.Some? ==> TakenFrom(t, r.value)
  {
    if forall k | k in t :: FieldAccepted(k, t[k]) then
      var d := DefaultConfig();
      Common.Some(AssetBundlerConfig(
        Toml.StringField(t, "file-name", d.fileName),
        if "compression" in t then DecodeCompression(t["compression"]).value else d.compression,
        Toml.BoolField(t, "obfuscate", d.obfuscate),
        Toml.BoolField(t, "bundle-for-debug-builds", d.bundleForDebugBuilds)))
    else Common.None
  }

  lemma TakenFromUnique(t: Toml.Table, c: AssetBundlerConfig, d: AssetBundlerConfig)
    requires TakenFrom(t, c) && TakenFrom(t, d)
    ensures c == d
  {
    if "compression" in t {
      assert DecodeCompression(Toml.TomlString(CompressionName(c.compression))) == Common.Some(c.compression);
      assert DecodeCompression(Toml.TomlString(CompressionName(d.compression))) == Common.Some(d.compression);
    }
  }

  function EncodeConfig(c: AssetBundlerConfig): Toml.Table
  {
    map["file-name" := Toml.TomlString(c.fileName),
        "compression" := Toml.TomlString(CompressionName(c.compression)),
        "obfuscate" := Toml.TomlBool(c.obfuscate),
        "bundle-for-debug-builds" := Toml.TomlBool(c.bundleForDebugBuilds)]
  }

  /** Every configuration can be written down and reads back unchanged. */
  lemma DecodeEncodeConfig(c: AssetBundlerConfig)
    ensures DecodeConfig(EncodeConfig(c)) == Common.Some(c)
  {
    var t := EncodeConfig(c);
    forall k | k in t
      ensures FieldAccepted(k, t[k])
    {
      CompressionNameRoundTrip(c.compression);
    }
    TakenFromUnique(t, DecodeConfig(t).value, c);
  }

  /** An empty file gives the defaults; any unknown key is rejected, and
      that includes the bundler crate's `out-dir`. */
  lemma DecodeEdges(t: Toml.Table, k: string)
    ensures DecodeConfig(map[]) == Common.Some(DefaultConfig())
    ensures k in t && k !in KnownKeys ==> DecodeConfig(t) == Common.None
    ensures "out-dir" in t ==> DecodeConfig(t) == Common.None
  {
    TakenFromUnique(map[], DecodeConfig(map[]).value, DefaultConfig());
    if k in t && k !in KnownKeys {
      assert !FieldAccepted(k, t[k]);
    }
    if "out-dir" in t {
      assert !FieldAccepted("out-dir", t["out-dir"]);
    }
  }

  function LoadConfig(file: Toml.ConfigFile): (r: Common.Exit<AssetBundlerConfig>)
    ensures r.Panic? <==> file.Malformed? || (file.Parsed? && DecodeConfig(file.table).None?)
    ensures file.Unreadable? ==> r == Common.Return(DefaultConfig())
    ensures r.Return? && file.Parsed? ==> TakenFrom(file.table, r.value)
  {
    Toml.LoadOrDefault(file, DecodeConfig, DefaultConfig())
  }

  /** `"target/{profile}/{file_name}.{bin|zip}"`, relative to the working
      directory. */
  function TargetPath(profile: string, c: AssetBundlerConfig): (p: string)
    ensures |p| >= |profile| + 8
    ensures p[..|profile| + 8] == "target/" + profile + "/"
    ensures p[|profile| + 8..] == c.fileName + "." + Extension(c.obfuscate)
  {
    "target/" + profile + "/" + c.fileName + "." + Extension(c.obfuscate)
  }

  predicate ShouldBundle(profile: string, c: AssetBundlerConfig)
  {
    profile == "release" || c.bundleForDebugBuilds
  }

  /** What build.rs's `main` does in `host`; `manifestDir` is the
      `CARGO_MANIFEST_DIR` fixed when the script was compiled, so only
      `PROFILE` is read at run time. */
  function BuildSpec(manifestDir: string, host: BuildHost, encode: seq<ZipModel.ZipRecord> -> seq<Common.Byte>): Common.Exit<BundleRun>
  {
    match LoadConfig(host.readConfig(manifestDir + "/asset_config.toml"))
    case Panic(message) => Common.Panic(message)
    case Return(config) =>
      if "PROFILE" !in host.env then Common.Panic(EnvPanic)
      else
        var profile := host.env["PROFILE"];
        if !ShouldBundle(profile, config) then Common.Return(Skipped)
        else
          var target := TargetPath(profile, config);
          match ZipDirSpec(host.walk(manifestDir + "/assets"), host.canCreateFile(target),
                           IntoMethod(config.compression), config.obfuscate, encode)
          case Panic(message) => Common.Panic(message)
          case Return(contents) => Common.Return(Bundled(target, contents))
  }

  /** build.rs's `main`, step by step as the source runs it; it exists
      beside `BuildSpec` to show `ZipDir`'s loop composed into the entry
      point, and its `ensures` ties the two together. */
  method RunBuildScript(manifestDir: string, host: BuildHost, encode: seq<ZipModel.ZipRecord> -> seq<Common.Byte>)
    returns (r: Common.Exit<BundleRun>)
    ensures r == BuildSpec(manifestDir, host, encode)
  {
    var loaded := LoadConfig(host.readConfig(manifestDir + "/asset_config.toml"));
    if loaded.Panic? {
      return Common.Panic(loaded.message);
    }
    var config := loaded.value;
    if "PROFILE" !in host.env {
      return Common.Panic(EnvPanic);
    }
    var profile := host.env["PROFILE"];
    if !ShouldBundle(profile, config) {
      return Common.Return(Skipped);
    }
    var target := TargetPath(profile, config);
    var written := ZipDir(host.walk(manifestDir + "/assets"), host.canCreateFile(target),
                          IntoMethod(config.compression), config.obfuscate, encode);
    if written.Panic? {
      return Common.Panic(written.message);
    }
    r := Common.Return(Bundled(target, written.value));
  }

  /** With a configuration and a profile, the assets are bundled exactly
      when the profile is `release` or debug bundles are asked for, into
      `target/{profile}/{file_name}.bin` when obfuscating and `.zip`
      otherwise; no directory is created first. */
  lemma BundlesExactlyWhenAsked(manifestDir: string, host: BuildHost, encode: seq<ZipModel.ZipRecord> -> seq<Common.Byte>,
                                profile: string, config: AssetBundlerConfig)
    requires "PROFILE" in host.env && host.env["PROFILE"] == profile
    requires LoadConfig(host.readConfig(manifestDir + "/asset_config.toml")) == Common.Return(config)
    ensures BuildSpec(manifestDir, host, encode) == Common.Return(Skipped) <==> !ShouldBundle(profile, config)
    ensures BuildSpec(manifestDir, host, encode).Return? && BuildSpec(manifestDir, host, encode).value.Bundled? ==>
      && ShouldBundle(profile, config)
      && BuildSpec(manifestDir, host, encode).value.path ==
           "target/" + profile + "/" + config.fileName + (if config.obfuscate then ".bin" else ".zip")
  {
    if config.obfuscate {
      assert "." + Extension(true) == ".bin";
    } else {
      assert "." + Extension(false) == ".zip";
    }
  }
}
