/** The `bevy_assetio_zip_bundler` crate (bevy_assetio_zip_bundler/src/lib.rs):
    its configuration file, and `bundle_crate_assets`, which a crate's build
    script calls to bundle the crate's `assets` directory. */
module Bundler {
  // Neither `Common` nor `ZipModel` is opened: their `None` and `Bzip2`
  // would clash with the constructors of `Compression`.
  import Common
  import ZipModel
  import Toml
  import opened DirBundler

  /** `Compression`, written in lower case in the configuration file. */
  datatype Compression = None | Bzip2 | Deflate

  /** The configuration file's name for each compression mode. */
  function CompressionName(c: Compression): string
  {
    match c
    case None => "none"
    case Bzip2 => "bzip2"
    case Deflate => "deflate"
  }

  const CompressionNames: set<string> := {"none", "bzip2", "deflate"}

  /** Deserialising a `Compression`: exactly the three lower-case names are
      accepted, each as the mode it names. */
  function DecodeCompression(v: Toml.TomlValue): (r: Common.Option<Compression>)
    ensures r.Some? <==> v.TomlString? && v.s in CompressionNames
    ensures r.Some? ==> CompressionName(r.value) == v.s
  {
    if v == Toml.TomlString("none") then Common.Some(None)
    else if v == Toml.TomlString("bzip2") then Common.Some(Bzip2)
    else if v == Toml.TomlString("deflate") then Common.Some(Deflate)
    else Common.None
  }

  /** Every mode reads back from its own name. */
  lemma CompressionNameRoundTrip(c: Compression)
    ensures DecodeCompression(Toml.TomlString(CompressionName(c))) == Common.Some(c)
  {
  }

  /** `Into<CompressionMethod>`: `none` stores the files uncompressed. */
  function IntoMethod(c: Compression): (m: ZipModel.CompressionMethod)
    ensures m == ZipModel.Stored <==> c == None
  {
    match c
    case None => ZipModel.Stored
    case Bzip2 => ZipModel.Bzip2
    case Deflate => ZipModel.Deflated
  }

  /** Distinct modes give distinct archive compression methods, and `none`
      is the only one that stores. */
  lemma IntoMethodInjective(c: Compression, d: Compression)
    ensures IntoMethod(c) == IntoMethod(d) <==> c == d
    ensures IntoMethod(c) == ZipModel.Stored <==> c == None
  {
  }

  /** `AssetBundlerConfig`. */
  datatype AssetBundlerConfig = AssetBundlerConfig(
    fileName: string,
    compression: Compression,
    obfuscate: bool,
    bundleForDebugBuilds: bool,
    outDir: string)

  /** `AssetBundlerConfig::default`. */
  function DefaultConfig(): (c: AssetBundlerConfig)
    ensures c.fileName == "assets" && c.compression == Bzip2
    ensures !c.obfuscate && !c.bundleForDebugBuilds
    ensures c.outDir == "./target"
  {
    AssetBundlerConfig("assets", Bzip2, false, false, "./target")
  }

  /** The kebab-case keys of the configuration file. */
  const KnownKeys: set<string> := {"file-name", "compression", "obfuscate", "bundle-for-debug-builds", "out-dir"}

  /** Whether the deserialiser accepts `v` under `key`: a known key with a
      value of its field's type. */
  predicate FieldAccepted(key: string, v: Toml.TomlValue)
  {
    if key == "file-name" || key == "out-dir" then v.TomlString?
    else if key == "obfuscate" || key == "bundle-for-debug-builds" then v.TomlBool?
    else if key == "compression" then DecodeCompression(v).Some?
    else false
  }

  /** Each field of `c` is the table's value under its key, or the
      default's value when the key is absent. */
  ghost predicate TakenFrom(t: Toml.Table, c: AssetBundlerConfig)
  {
    && (if "file-name" in t then t["file-name"] == Toml.TomlString(c.fileName)
        else c.fileName == DefaultConfig().fileName)
    && (if "compression" in t then t["compression"] == Toml.TomlString(CompressionName(c.compression))
        else c.compression == DefaultConfig().compression)
    && (if "obfuscate" in t then t["obfuscate"] == Toml.TomlBool(c.obfuscate)
        else c.obfuscate == DefaultConfig().obfuscate)
    && (if "bundle-for-debug-builds" in t then t["bundle-for-debug-builds"] == Toml.TomlBool(c.bundleForDebugBuilds)
        else c.bundleForDebugBuilds == DefaultConfig().bundleForDebugBuilds)
    && (if "out-dir" in t then t["out-dir"] == Toml.TomlString(c.outDir)
        else c.outDir == DefaultConfig().outDir)
  }

  /** Deserialising the table (`deny_unknown_fields`, `default`): it is
      accepted exactly when every key is known and holds a value of the
      right type, and then every field comes from the table or, when
      absent, from the default. */
  function DecodeConfig(t: Toml.Table): (r: Common.Option<AssetBundlerConfig>)
    ensures r.Some? <==> forall k | k in t :: FieldAccepted(k, t[k])
    ensures r.Some? ==> TakenFrom(t, r.value)
  {
    if forall k | k in t :: FieldAccepted(k, t[k]) then
      var d := DefaultConfig();
      Common.Some(AssetBundlerConfig(
        Toml.StringField(t, "file-name", d.fileName),
        if "compression" in t then DecodeCompression(t["compression"]).value else d.compression,
        Toml.BoolField(t, "obfuscate", d.obfuscate),
        Toml.BoolField(t, "bundle-for-debug-builds", d.bundleForDebugBuilds),
        Toml.StringField(t, "out-dir", d.outDir)))
    else Common.None
  }

  /** A table decodes to at most one configuration: `TakenFrom` pins every
      field. */
  lemma TakenFromUnique(t: Toml.Table, c: AssetBundlerConfig, d: AssetBundlerConfig)
    requires TakenFrom(t, c) && TakenFrom(t, d)
    ensures c == d
  {
    if "compression" in t {
      assert CompressionName(c.compression) == CompressionName(d.compression);
      assert DecodeCompression(Toml.TomlString(CompressionName(c.compression))) == Common.Some(c.compression);
      assert DecodeCompression(Toml.TomlString(CompressionName(d.compression))) == Common.Some(d.compression);
    }
  }

  /** The configuration file that spells out every field of `c`. */
  function EncodeConfig(c: AssetBundlerConfig): Toml.Table
  {
    map["file-name" := Toml.TomlString(c.fileName),
        "compression" := Toml.TomlString(CompressionName(c.compression)),
        "obfuscate" := Toml.TomlBool(c.obfuscate),
        "bundle-for-debug-builds" := Toml.TomlBool(c.bundleForDebugBuilds),
        "out-dir" := Toml.TomlString(c.outDir)]
  }

  /** Every configuration can be written down and reads back unchanged. */
  lemma DecodeEncodeConfig(c: AssetBundlerConfig)
    ensures DecodeConfig(EncodeConfig(c)) == Common.Some(c)
  {
    var t := EncodeConfig(c);
    forall k | k in t
      ensures FieldAccepted(k, t[k])
    {
      CompressionNameRoundTrip(c.compression);
    }
    TakenFromUnique(t, DecodeConfig(t).value, c);
  }

  /** An empty file gives the default configuration, and a key outside the
      five known ones is rejected whatever else the file holds. */
  lemma DecodeEdges(t: Toml.Table, k: string)
    ensures DecodeConfig(map[]) == Common.Some(DefaultConfig())
    ensures k in t && k !in KnownKeys ==> DecodeConfig(t) == Common.None
  {
    TakenFromUnique(map[], DecodeConfig(map[]).value, DefaultConfig());
    if k in t && k !in KnownKeys {
      assert !FieldAccepted(k, t[k]);
    }
  }

  /** Loading `asset_config.toml`. */
  function LoadConfig(file: Toml.ConfigFile): (r: Common.Exit<AssetBundlerConfig>)
    ensures r.Panic? <==> file.Malformed? || (file.Parsed? && DecodeConfig(file.table).None?)
    ensures file.Unreadable? ==> r == Common.Return(DefaultConfig())
    ensures r.Return? && file.Parsed? ==> TakenFrom(file.table, r.value)
  {
    Toml.LoadOrDefault(file, DecodeConfig, DefaultConfig())
  }

  /** `"{out_dir}/{file_name}.{bin|zip}"`. */
  function BundleFile(c: AssetBundlerConfig): (p: string)
    ensures |p| > |c.outDir|
    ensures p[..|c.outDir| + 1] == c.outDir + "/"
    ensures p[|c.outDir| + 1..] == c.fileName + "." + Extension(c.obfuscate)
  {
    c.outDir + "/" + c.fileName + "." + Extension(c.obfuscate)
  }

  /** Release builds are always bundled; other profiles only on request. */
  predicate ShouldBundle(profile: string, c: AssetBundlerConfig)
  {
    profile == "release" || c.bundleForDebugBuilds
  }

  /** `bundle_assets`: `zip_dir` with the given settings. */
  method BundleAssets(walk: seq<WalkItem>, canCreate: bool, obfuscate: bool,
                      compression: ZipModel.CompressionMethod, encode: seq<ZipModel.ZipRecord> -> seq<Common.Byte>)
    returns (r: Common.Exit<seq<Common.Byte>>)
    ensures r == ZipDirSpec(walk, canCreate, compression, obfuscate, encode)
  {
    r := ZipDir(walk, canCreate, compression, obfuscate, encode);
  }

  /** What `bundle_crate_assets` does in `host`: read `CARGO_MANIFEST_DIR`,
      load the configuration beside the manifest, read `PROFILE`, create the
      output directory, and bundle the `assets` directory when the profile
      asks for it; each step that fails panics. */
  function BundleCrateAssetsSpec(host: BuildHost, encode: seq<ZipModel.ZipRecord> -> seq<Common.Byte>): Common.Exit<BundleRun>
  {
    if "CARGO_MANIFEST_DIR" !in host.env then Common.Panic(EnvPanic)
    else
      var cargoDir := host.env["CARGO_MANIFEST_DIR"];
      match LoadConfig(host.readConfig(cargoDir + "/asset_config.toml"))
      case Panic(message) => Common.Panic(message)
      case Return(config) =>
        if "PROFILE" !in host.env then Common.Panic(EnvPanic)
        else if !host.canCreateDir(config.outDir) then Common.Panic(UnwrapPanic)
        else if !ShouldBundle(host.env["PROFILE"], config) then Common.Return(Skipped)
        else
          var bundleFile := BundleFile(config);
          match ZipDirSpec(host.walk(cargoDir + "/assets"), host.canCreateFile(bundleFile),
                           IntoMethod(config.compression), config.obfuscate, encode)
          case Panic(message) => Common.Panic(message)
          case Return(contents) => Common.Return(Bundled(bundleFile, contents))
  }

  /** `bundle_crate_assets`, step by step as the source runs them; it exists
      beside `BundleCrateAssetsSpec` to show `ZipDir`'s loop composed into the
      entry point, and its `ensures` ties the two together. */
  method BundleCrateAssets(host: BuildHost, encode: seq<ZipModel.ZipRecord> -> seq<Common.Byte>)
    returns (r: Common.Exit<BundleRun>)
    ensures r == BundleCrateAssetsSpec(host, encode)
  {
    if "CARGO_MANIFEST_DIR" !in host.env {
      return Common.Panic(EnvPanic);
    }
    var cargoDir := host.env["CARGO_MANIFEST_DIR"];
    var loaded := LoadConfig(host.readConfig(cargoDir + "/asset_config.toml"));
    if loaded.Panic? {
      return Common.Panic(loaded.message);
    }
    var config := loaded.value;
    if "PROFILE" !in host.env {
      return Common.Panic(EnvPanic);
    }
    var profile := host.env["PROFILE"];
    var assetDir := cargoDir + "/assets";
    var bundleFile := BundleFile(config);
    if !host.canCreateDir(config.outDir) {
      return Common.Panic(UnwrapPanic);
    }
    if !ShouldBundle(profile, config) {
      return Common.Return(Skipped);
    }
    var written := BundleAssets(host.walk(assetDir), host.canCreateFile(bundleFile),
                                config.obfuscate, IntoMethod(config.compression), encode);
    if written.Panic? {
      return Common.Panic(written.message);
    }
    r := Common.Return(Bundled(bundleFile, written.value));
  }

  /** Once the environment and the configuration are in place, the assets
      are bundled exactly when the profile is `release` or the
      configuration asks for debug bundles, and then into
      `{out_dir}/{file_name}.bin` when obfuscating and `.zip` otherwise. */
  lemma BundlesExactlyWhenAsked(host: BuildHost, encode: seq<ZipModel.ZipRecord> -> seq<Common.Byte>,
                                cargoDir: string, profile: string, config: AssetBundlerConfig)
    requires "CARGO_MANIFEST_DIR" in host.env && host.env["CARGO_MANIFEST_DIR"] == cargoDir
    requires "PROFILE" in host.env && host.env["PROFILE"] == profile
    requires LoadConfig(host.readConfig(cargoDir + "/asset_config.toml")) == Common.Return(config)
    requires host.canCreateDir(config.outDir)
    ensures BundleCrateAssetsSpec(host, encode) == Common.Return(Skipped) <==> !ShouldBundle(profile, config)
    ensures BundleCrateAssetsSpec(host, encode).Return? && BundleCrateAssetsSpec(host, encode).value.Bundled? ==>
      && ShouldBundle(profile, config)
      && BundleCrateAssetsSpec(host, encode).value.path ==
           config.outDir + "/" + config.fileName + (if config.obfuscate then ".bin" else ".zip")
  {
    if config.obfuscate {
      assert "." + Extension(true) == ".bin";
    } else {
      assert "." + Extension(false) == ".zip";
    }
  }

  /** The output directory is created before the profile is looked at, so
      failing to create it panics even in a build that bundles nothing. */
  lemma OutDirAlwaysCreated(host: BuildHost, encode: seq<ZipModel.ZipRecord> -> seq<Common.Byte>,
                            cargoDir: string, config: AssetBundlerConfig)
    requires "CARGO_MANIFEST_DIR" in host.env && host.env["CARGO_MANIFEST_DIR"] == cargoDir
    requires "PROFILE" in host.env
    requires LoadConfig(host.readConfig(cargoDir + "/asset_config.toml")) == Common.Return(config)
    requires !host.canCreateDir(config.outDir)
    ensures BundleCrateAssetsSpec(host, encode) == Common.Panic(UnwrapPanic)
  {
  }

  /** Without `CARGO_MANIFEST_DIR` nothing is read; a configuration file
      that is present but rejected panics before `PROFILE` is read; an
      unreadable one means the defaults. */
  lemma ConfigOutcomes(host: BuildHost, encode: seq<ZipModel.ZipRecord> -> seq<Common.Byte>, cargoDir: string)
    ensures "CARGO_MANIFEST_DIR" !in host.env ==> BundleCrateAssetsSpec(host, encode) == Common.Panic(EnvPanic)
    ensures "CARGO_MANIFEST_DIR" in host.env && host.env["CARGO_MANIFEST_DIR"] == cargoDir ==>
      var file := host.readConfig(cargoDir + "/asset_config.toml");
      && (file.Malformed? || (file.Parsed? && DecodeConfig(file.table).None?) ==>
            BundleCrateAssetsSpec(host, encode) == Common.Panic(Toml.ParsePanic))
      && (file.Unreadable? ==> LoadConfig(file) == Common.Return(DefaultConfig()))
  {
  }
}
