/** `AdvancedAssetIo` of src/lib.rs: an `AssetIo` that serves assets from
    `<file_name>.bin` (obfuscated) or `<file_name>.zip` (plain), both looked up
    relative to the working directory, and falls back to the platform's
    default `AssetIo` for everything else. */
module AdvancedIo {
  import opened Common
  import opened ZipModel
  import opened AssetResolve

  /** `AdvancedAssetIoConfig`. */
  datatype AdvancedAssetIoConfig = AdvancedAssetIoConfig(fileName: string)

  /** `AdvancedAssetIoConfig::default`. */
  function DefaultConfig(): (c: AdvancedAssetIoConfig)
    ensures c.fileName == "assets"
  {
    AdvancedAssetIoConfig("assets")
  }

  datatype AdvancedAssetIo = AdvancedAssetIo(fallback: Fallback, config: AdvancedAssetIoConfig)

  /** The obfuscated candidate, `"{file_name}.bin"`. */
  function BinPath(config: AdvancedAssetIoConfig): (p: string)
    ensures |p| == |config.fileName| + 4
    ensures p[..|config.fileName|] == config.fileName && p[|config.fileName|..] == ".bin"
  {
    config.fileName + ".bin"
  }

  /** The plain candidate, `"{file_name}.zip"`. */
  function ZipPath(config: AdvancedAssetIoConfig): (p: string)
    ensures |p| == |config.fileName| + 4
    ensures p[..|config.fileName|] == config.fileName && p[|config.fileName|..] == ".zip"
  {
    config.fileName + ".zip"
  }

  /** The two candidates are distinct files: they differ in the extension. */
  lemma CandidatesDistinct(config: AdvancedAssetIoConfig)
    ensures BinPath(config) != ZipPath(config)
  {
    var n := |config.fileName|;
    assert BinPath(config)[n + 1] == 'b' && ZipPath(config)[n + 1] == 'z';
  }

  /** `AdvancedAssetIo::bundle`: the `.bin` file if it exists, read through
      `Xor`; else the `.zip` file, read as it is; else no bundle. Whichever
      file is chosen, failing to open or to parse it gives no bundle; the
      other file is not tried. */
  function Bundle(io: AdvancedAssetIo, host: Host): (b: Option<Archive>)
    ensures BinPath(io.config) in host.fs ==>
      b == OpenBundle(host, Candidate(io.config.fileName + ".bin", true))
    ensures BinPath(io.config) !in host.fs && ZipPath(io.config) in host.fs ==>
      b == OpenBundle(host, Candidate(io.config.fileName + ".zip", false))
    ensures BinPath(io.config) !in host.fs && ZipPath(io.config) !in host.fs ==> b == None
  {
    Resolve(host, BinPath(io.config), ZipPath(io.config))
  }

  /** What `load_path` produces. */
  function LoadPathSpec(io: AdvancedAssetIo, host: Host, path: AssetPath): Exit<Result<seq<Byte>, AssetIoError>>
  {
    LoadSpec(Bundle(io, host), io.fallback, path)
  }

  /** `load_path`: re-resolves the bundle on every call, then serves the
      entry from it or delegates to the fallback. */
  method LoadPath(io: AdvancedAssetIo, host: Host, path: AssetPath)
    returns (r: Exit<Result<seq<Byte>, AssetIoError>>)
    ensures r == LoadPathSpec(io, host, path)
  {
    var bundle := Bundle(io, host);
    r := LoadFromBundle(bundle, io.fallback, path);
  }

  /** `read_directory`, `is_directory`, `watch_path_for_changes` and
      `watch_for_changes` never look at the bundle. */
  function ReadDirectory(io: AdvancedAssetIo, host: Host, path: AssetPath): Result<seq<AssetPath>, AssetIoError>
  {
    io.fallback.readDirectory(path)
  }

  function IsDirectory(io: AdvancedAssetIo, host: Host, path: AssetPath): bool
  {
    io.fallback.isDirectory(path)
  }

  function WatchPathForChanges(io: AdvancedAssetIo, host: Host, path: AssetPath): Result<(), AssetIoError>
  {
    io.fallback.watchPathForChanges(path)
  }

  function WatchForChanges(io: AdvancedAssetIo, host: Host): Result<(), AssetIoError>
  {
    io.fallback.watchForChanges
  }

  /** The four non-loading operations give the fallback's answer in every
      host, whether a bundle is present, absent or broken. */
  lemma ForwardersIgnoreBundle(io: AdvancedAssetIo, host: Host, other: Host, path: AssetPath)
    ensures ReadDirectory(io, host, path) == ReadDirectory(io, other, path) == io.fallback.readDirectory(path)
    ensures IsDirectory(io, host, path) == IsDirectory(io, other, path) == io.fallback.isDirectory(path)
    ensures WatchPathForChanges(io, host, path) == WatchPathForChanges(io, other, path)
                                                == io.fallback.watchPathForChanges(path)
    ensures WatchForChanges(io, host) == WatchForChanges(io, other) == io.fallback.watchForChanges
  {
  }

  /** When both files exist, the `.bin` one is read, through `Xor`. */
  lemma BinTakesPrecedence(io: AdvancedAssetIo, host: Host, bytes: seq<Byte>)
    requires BinPath(io.config) in host.fs && ZipPath(io.config) in host.fs
    requires host.fs[BinPath(io.config)] == Present(bytes)
    ensures Bundle(io, host) == host.parse(XorIo.XorAll(bytes))
  {
  }

  /** A `.bin` file that cannot be opened or parsed gives no bundle, even
      beside a good `.zip` file, so loads go to the fallback. */
  lemma BrokenBinFallsBack(io: AdvancedAssetIo, host: Host, path: AssetPath)
    requires BinPath(io.config) in host.fs
    requires OpenBundle(host, Candidate(BinPath(io.config), true)) == None
    ensures Bundle(io, host) == None
    ensures LoadPathSpec(io, host, path) == Return(io.fallback.loadPath(path))
  {
  }

  /** An entry found in the bundle is served with exactly its stored
      bytes ... */
  lemma LoadPathHit(io: AdvancedAssetIo, host: Host, name: string, archive: Archive, data: seq<Byte>)
    requires Bundle(io, host) == Some(archive)
    requires name in archive && archive[name] == Readable(data, None)
    ensures LoadPathSpec(io, host, Utf8(name)) == Return(Ok(data))
  {
  }

  /** ... and an error while reading it is returned, not answered from the
      fallback. */
  lemma LoadPathReadError(io: AdvancedAssetIo, host: Host, name: string, archive: Archive,
                          data: seq<Byte>, e: IoError)
    requires Bundle(io, host) == Some(archive)
    requires name in archive && archive[name] == Readable(data, Some(e))
    ensures LoadPathSpec(io, host, Utf8(name)) == Return(Err(AssetIoError.Io(e)))
  {
  }

  /** With no bundle, or with a bundle whose `by_name` fails for the path,
      the result is exactly the fallback's. */
  lemma LoadPathDelegates(io: AdvancedAssetIo, host: Host, path: AssetPath)
    requires || Bundle(io, host).None?
             || (path.Utf8? && ByName(Bundle(io, host).value, path.text).Err?)
    ensures LoadPathSpec(io, host, path) == Return(io.fallback.loadPath(path))
  {
  }

  /** A path that is not unicode panics once a bundle is open; without a
      bundle it goes to the fallback unexamined. */
  lemma NonUnicodePath(io: AdvancedAssetIo, host: Host, raw: seq<Byte>)
    ensures Bundle(io, host).Some? ==>
      LoadPathSpec(io, host, NonUtf8(raw)) == Panic("non-unicode filename")
    ensures Bundle(io, host).None? ==>
      LoadPathSpec(io, host, NonUtf8(raw)) == Return(io.fallback.loadPath(NonUtf8(raw)))
  {
  }

  /** With neither file present, every operation answers as the fallback
      would. */
  lemma NoBundleAllDelegate(io: AdvancedAssetIo, host: Host, path: AssetPath)
    requires BinPath(io.config) !in host.fs && ZipPath(io.config) !in host.fs
    ensures LoadPathSpec(io, host, path) == Return(io.fallback.loadPath(path))
    ensures ReadDirectory(io, host, path) == io.fallback.readDirectory(path)
    ensures IsDirectory(io, host, path) == io.fallback.isDirectory(path)
  {
  }
}
