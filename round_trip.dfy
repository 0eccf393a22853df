/** The two halves of the system put together: an asset directory bundled by
    `zip_dir` (plain or obfuscated) and then served by either `AssetIo`
    gives back every file with exactly its bytes, and leaves every other
    request to the fallback. The archive format is taken on its contract
    (`Faithful`: parsing what the writer serialised gives back the archive
    of the records written). */
module RoundTrip {
  import opened Common
  import opened ZipModel
  import opened AssetResolve
  import XorIo
  import opened DirBundler
  import AdvancedIo
  import AssetIoZip
  import Bundler
  import BuildScript

  /** The bundle `zip_dir` wrote, opened the way it was written (through
      `Xor` exactly when it was obfuscated), parses to the archive of the
      walked records. */
  lemma OpenWrittenBundle(host: Host, c: Candidate, walk: seq<WalkItem>, compression: CompressionMethod,
                          encode: seq<ZipRecord> -> seq<Byte>, recs: seq<ZipRecord>)
    requires Faithful(host.parse, encode)
    requires BundleRecords(walk, compression) == Return(recs)
    requires c.path in host.fs
    requires host.fs[c.path] == Present(ZipDirSpec(walk, true, compression, c.obfuscated, encode).value)
    ensures OpenBundle(host, c) == Some(ArchiveOf(recs))
  {
    if c.obfuscated {
      XorIo.XorAllInvolutive(encode(recs));
    }
  }

  /** What loading from the archive of a well-formed walk gives: each
      walked file its bytes, each directory `d` an empty entry `d/`, and
      every name nothing was stored under the fallback's answer. */
  lemma LoadFromWalkArchive(walk: seq<WalkItem>, compression: CompressionMethod, recs: seq<ZipRecord>,
                            fallback: Fallback, i: nat, name: string)
    requires BundleRecords(walk, compression) == Return(recs)
    requires WellFormedWalk(walk)
    ensures i < |walk| && walk[i].Visit? && walk[i].kind.RegularFile? ==>
      && walk[i].kind.contents.Some?
      && LoadSpec(Some(ArchiveOf(recs)), fallback, Utf8(walk[i].name)) == Return(Ok(walk[i].kind.contents.value))
    ensures i < |walk| && walk[i].Visit? && walk[i].kind.NotAFile? && |walk[i].name| != 0 ==>
      LoadSpec(Some(ArchiveOf(recs)), fallback, Utf8(walk[i].name + "/")) == Return(Ok([]))
    ensures (forall j | 0 <= j < |walk| :: ItemKey(walk[j]) != Some(name)) ==>
      LoadSpec(Some(ArchiveOf(recs)), fallback, Utf8(name)) == Return(fallback.loadPath(Utf8(name)))
  {
    if i < |walk| && ItemKey(walk[i]).Some? {
      BundledItem(walk, compression, recs, i);
    }
    BundledKeys(walk, compression, recs, name);
  }

  /** A walk `zip_dir` bundled without panicking had no failed item. */
  lemma BundledWalkRecords(walk: seq<WalkItem>, canCreate: bool, compression: CompressionMethod,
                           obfuscate: bool, encode: seq<ZipRecord> -> seq<Byte>)
    requires ZipDirSpec(walk, canCreate, compression, obfuscate, encode).Return?
    ensures canCreate && BundleRecords(walk, compression).Return?
  {
  }

  /** `AdvancedAssetIo` serving a bundle `zip_dir` wrote as
      `{file_name}.bin` (obfuscated) or `{file_name}.zip` (plain, with no
      `.bin` beside it to shadow it). */
  lemma AdvancedServesBundle(io: AdvancedIo.AdvancedAssetIo, host: Host, walk: seq<WalkItem>,
                             compression: CompressionMethod, obfuscate: bool,
                             encode: seq<ZipRecord> -> seq<Byte>, image: seq<Byte>, i: nat, name: string)
    requires Faithful(host.parse, encode) && WellFormedWalk(walk)
    requires ZipDirSpec(walk, true, compression, obfuscate, encode) == Return(image)
    requires obfuscate ==> AdvancedIo.BinPath(io.config) in host.fs
                           && host.fs[AdvancedIo.BinPath(io.config)] == Present(image)
    requires !obfuscate ==> AdvancedIo.BinPath(io.config) !in host.fs
                            && AdvancedIo.ZipPath(io.config) in host.fs
                            && host.fs[AdvancedIo.ZipPath(io.config)] == Present(image)
    ensures i < |walk| && walk[i].Visit? && walk[i].kind.RegularFile? ==>
      && walk[i].kind.contents.Some?
      && AdvancedIo.LoadPathSpec(io, host, Utf8(walk[i].name)) == Return(Ok(walk[i].kind.contents.value))
    ensures (forall j | 0 <= j < |walk| :: ItemKey(walk[j]) != Some(name)) ==>
      AdvancedIo.LoadPathSpec(io, host, Utf8(name)) == Return(io.fallback.loadPath(Utf8(name)))
  {
    var recs := BundleRecords(walk, compression).value;
    var c := if obfuscate then Candidate(AdvancedIo.BinPath(io.config), true)
             else Candidate(AdvancedIo.ZipPath(io.config), false);
    OpenWrittenBundle(host, c, walk, compression, encode, recs);
    assert AdvancedIo.Bundle(io, host) == Some(ArchiveOf(recs));
    LoadFromWalkArchive(walk, compression, recs, io.fallback, i, name);
  }

  /** `AssetIoZip` serving a bundle `zip_dir` wrote beside the executable. */
  lemma ZipServesBundle(io: AssetIoZip.AssetIoZip, host: Host, dir: string, walk: seq<WalkItem>,
                        compression: CompressionMethod, obfuscate: bool,
                        encode: seq<ZipRecord> -> seq<Byte>, image: seq<Byte>, i: nat, name: string)
    requires host.currentExe == ExeAt(Some(Utf8(dir)))
    requires Faithful(host.parse, encode) && WellFormedWalk(walk)
    requires ZipDirSpec(walk, true, compression, obfuscate, encode) == Return(image)
    requires obfuscate ==> AssetIoZip.BinPath(dir, io.config) in host.fs
                           && host.fs[AssetIoZip.BinPath(dir, io.config)] == Present(image)
    requires !obfuscate ==> AssetIoZip.BinPath(dir, io.config) !in host.fs
                            && AssetIoZip.ZipPath(dir, io.config) in host.fs
                            && host.fs[AssetIoZip.ZipPath(dir, io.config)] == Present(image)
    ensures i < |walk| && walk[i].Visit? && walk[i].kind.RegularFile? ==>
      && walk[i].kind.contents.Some?
      && AssetIoZip.LoadPathSpec(io, host, Utf8(walk[i].name)) == Return(Ok(walk[i].kind.contents.value))
    ensures (forall j | 0 <= j < |walk| :: ItemKey(walk[j]) != Some(name)) ==>
      AssetIoZip.LoadPathSpec(io, host, Utf8(name)) == Return(io.fallback.loadPath(Utf8(name)))
  {
    var recs := BundleRecords(walk, compression).value;
    var c := if obfuscate then Candidate(AssetIoZip.BinPath(dir, io.config), true)
             else Candidate(AssetIoZip.ZipPath(dir, io.config), false);
    OpenWrittenBundle(host, c, walk, compression, encode, recs);
    assert AssetIoZip.Bundle(io, host) == Return(Some(ArchiveOf(recs)));
    LoadFromWalkArchive(walk, compression, recs, io.fallback, i, name);
  }

  /** The bundler crate writes to the very path `AssetIoZip` looks at when
      the executable lives in `out_dir` and both use the same file name. */
  lemma BundlerFileIsZipCandidate(c: Bundler.AssetBundlerConfig, io: AssetIoZip.AssetIoZip)
    requires io.config.fileName == c.fileName
    ensures c.obfuscate ==> Bundler.BundleFile(c) == AssetIoZip.BinPath(c.outDir, io.config)
    ensures !c.obfuscate ==> Bundler.BundleFile(c) == AssetIoZip.ZipPath(c.outDir, io.config)
  {
    if c.obfuscate {
      assert "." + Extension(true) == ".bin";
    } else {
      assert "." + Extension(false) == ".zip";
    }
  }

  /** build.rs writes to the path `AssetIoZip` looks at when the executable
      lives in `target/{profile}`. */
  lemma BuildTargetIsZipCandidate(profile: string, c: BuildScript.AssetBundlerConfig, io: AssetIoZip.AssetIoZip)
    requires io.config.fileName == c.fileName
    ensures c.obfuscate ==> BuildScript.TargetPath(profile, c) == AssetIoZip.BinPath("target/" + profile, io.config)
    ensures !c.obfuscate ==> BuildScript.TargetPath(profile, c) == AssetIoZip.ZipPath("target/" + profile, io.config)
  {
    if c.obfuscate {
      assert "." + Extension(true) == ".bin";
    } else {
      assert "." + Extension(false) == ".zip";
    }
  }

  /** End to end: build.rs has bundled the asset directory, and a binary
      whose executable lives in `target/{profile}` serves it; every asset
      file loads with exactly its bytes. */
  lemma BuildThenServe(manifestDir: string, build: BuildHost, encode: seq<ZipRecord> -> seq<Byte>,
                       config: BuildScript.AssetBundlerConfig, contents: seq<Byte>,
                       io: AssetIoZip.AssetIoZip, host: Host, i: nat)
    requires BuildScript.LoadConfig(build.readConfig(manifestDir + "/asset_config.toml")) == Return(config)
    requires "PROFILE" in build.env
    requires BuildScript.BuildSpec(manifestDir, build, encode).Return?
    requires BuildScript.BuildSpec(manifestDir, build, encode).value.Bundled?
    requires WellFormedWalk(build.walk(manifestDir + "/assets"))
    requires io.config.fileName == config.fileName
    requires host.currentExe == ExeAt(Some(Utf8("target/" + build.env["PROFILE"])))
    requires Faithful(host.parse, encode)
    requires var run := BuildScript.BuildSpec(manifestDir, build, encode).value;
             run.path in host.fs && host.fs[run.path] == Present(run.contents)
    requires !config.obfuscate ==> AssetIoZip.BinPath("target/" + build.env["PROFILE"], io.config) !in host.fs
    ensures var walk := build.walk(manifestDir + "/assets");
      i < |walk| && walk[i].Visit? && walk[i].kind.RegularFile? ==>
        && walk[i].kind.contents.Some?
        && AssetIoZip.LoadPathSpec(io, host, Utf8(walk[i].name)) == Return(Ok(walk[i].kind.contents.value))
  {
    var profile := build.env["PROFILE"];
    var walk := build.walk(manifestDir + "/assets");
    var run := BuildScript.BuildSpec(manifestDir, build, encode).value;
    var compression := BuildScript.IntoMethod(config.compression);
    assert run.path == BuildScript.TargetPath(profile, config);
    assert ZipDirSpec(walk, true, compression, config.obfuscate, encode) == Return(run.contents);
    BuildTargetIsZipCandidate(profile, config, io);
    if !config.obfuscate {
      assert AssetIoZip.ZipPath("target/" + profile, io.config) == run.path;
    }
    ZipServesBundle(io, host, "target/" + profile, walk, compression, config.obfuscate, encode,
                    run.contents, i, "");
  }

  /** End to end through the bundler crate: the asset directory bundled by
      `bundle_crate_assets`, served by `AssetIoZip` from an executable in
      `out_dir`. */
  lemma BundlerThenServe(build: BuildHost, encode: seq<ZipRecord> -> seq<Byte>,
                         config: Bundler.AssetBundlerConfig,
                         io: AssetIoZip.AssetIoZip, host: Host, i: nat)
    requires "CARGO_MANIFEST_DIR" in build.env && "PROFILE" in build.env
    requires var cargoDir := build.env["CARGO_MANIFEST_DIR"];
             Bundler.LoadConfig(build.readConfig(cargoDir + "/asset_config.toml")) == Return(config)
    requires Bundler.BundleCrateAssetsSpec(build, encode).Return?
    requires Bundler.BundleCrateAssetsSpec(build, encode).value.Bundled?
    requires WellFormedWalk(build.walk(build.env["CARGO_MANIFEST_DIR"] + "/assets"))
    requires io.config.fileName == config.fileName
    requires host.currentExe == ExeAt(Some(Utf8(config.outDir)))
    requires Faithful(host.parse, encode)
    requires var run := Bundler.BundleCrateAssetsSpec(build, encode).value;
             run.path in host.fs && host.fs[run.path] == Present(run.contents)
    requires !config.obfuscate ==> AssetIoZip.BinPath(config.outDir, io.config) !in host.fs
    ensures var walk := build.walk(build.env["CARGO_MANIFEST_DIR"] + "/assets");
      i < |walk| && walk[i].Visit? && walk[i].kind.RegularFile? ==>
        && walk[i].kind.contents.Some?
        && AssetIoZip.LoadPathSpec(io, host, Utf8(walk[i].name)) == Return(Ok(walk[i].kind.contents.value))
  {
    var walk := build.walk(build.env["CARGO_MANIFEST_DIR"] + "/assets");
    var run := Bundler.BundleCrateAssetsSpec(build, encode).value;
    var compression := Bundler.IntoMethod(config.compression);
    assert run.path == Bundler.BundleFile(config);
    assert ZipDirSpec(walk, true, compression, config.obfuscate, encode) == Return(run.contents);
    BundlerFileIsZipCandidate(config, io);
    ZipServesBundle(io, host, config.outDir, walk, compression, config.obfuscate, encode,
                    run.contents, i, "");
  }
}
