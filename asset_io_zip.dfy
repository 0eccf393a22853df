/** `AssetIoZip` of bevy_assetio_zip/src/lib.rs: the same resolution as
    `AdvancedAssetIo`, except that the bundle files are looked for in the
    directory of the running executable, whose lookup panics when it fails.
    Its `Xor` comes from the `xorio` crate, taken to be the transform of
    src/xor.rs. */
module AssetIoZip {
  import opened Common
  import opened ZipModel
  import opened AssetResolve

  /** `AssetIoZipConfig`. */
  datatype AssetIoZipConfig = AssetIoZipConfig(fileName: string)

  /** `AssetIoZipConfig::default`. */
  function DefaultConfig(): (c: AssetIoZipConfig)
    ensures c.fileName == "assets"
  {
    AssetIoZipConfig("assets")
  }

  datatype AssetIoZip = AssetIoZip(fallback: Fallback, config: AssetIoZipConfig)

  /** The directory of the executable as text, with the three panics of
      its lookup: no executable path, no parent directory, not unicode. */
  function ExeDir(exe: CurrentExe): (d: Exit<string>)
    ensures exe.ExeUnavailable? ==> d == Panic("Could not obtain current exe path")
    ensures exe.ExeAt? && exe.parent.None? ==> d == Panic("Current exe has no parent dir")
    ensures exe.ExeAt? && exe.parent.Some? && exe.parent.value.NonUtf8? ==>
      d == Panic("Exe path contains invalid unicode")
    ensures d.Return? <==> exe.ExeAt? && exe.parent.Some? && exe.parent.value.Utf8?
    ensures d.Return? ==> d.value == exe.parent.value.text
  {
    match exe
    case ExeUnavailable => Panic("Could not obtain current exe path")
    case ExeAt(parent) =>
      match parent
      case None => Panic("Current exe has no parent dir")
      case Some(dir) =>
        match ToStr(dir)
        case None => Panic("Exe path contains invalid unicode")
        case Some(text) => Return(text)
  }

  /** The obfuscated candidate, `"{exe_dir}/{file_name}.bin"`. */
  function BinPath(exeDir: string, config: AssetIoZipConfig): (p: string)
    ensures |p| > |exeDir|
    ensures p[..|exeDir| + 1] == exeDir + "/"
    ensures p[|exeDir| + 1..] == config.fileName + ".bin"
  {
    exeDir + "/" + config.fileName + ".bin"
  }

  /** The plain candidate, `"{exe_dir}/{file_name}.zip"`. */
  function ZipPath(exeDir: string, config: AssetIoZipConfig): (p: string)
    ensures |p| > |exeDir|
    ensures p[..|exeDir| + 1] == exeDir + "/"
    ensures p[|exeDir| + 1..] == config.fileName + ".zip"
  {
    exeDir + "/" + config.fileName + ".zip"
  }

  /** `AssetIoZip::bundle`: after locating the executable's directory, the
      `.bin` file there if it exists, read through `Xor`; else the `.zip`
      file; else none. A file that fails to open or parse gives none. */
  function Bundle(io: AssetIoZip, host: Host): (b: Exit<Option<Archive>>)
    ensures ExeDir(host.currentExe).Panic? ==> b == Panic(ExeDir(host.currentExe).message)
    ensures ExeDir(host.currentExe).Return? ==>
      var dir := ExeDir(host.currentExe).value;
      && (BinPath(dir, io.config) in host.fs ==>
            b == Return(OpenBundle(host, Candidate(dir + "/" + io.config.fileName + ".bin", true))))
      && (BinPath(dir, io.config) !in host.fs && ZipPath(dir, io.config) in host.fs ==>
            b == Return(OpenBundle(host, Candidate(dir + "/" + io.config.fileName + ".zip", false))))
      && (BinPath(dir, io.config) !in host.fs && ZipPath(dir, io.config) !in host.fs ==>
            b == Return(None))
  {
    match ExeDir(host.currentExe)
    case Panic(message) => Panic(message)
    case Return(dir) => Return(Resolve(host, BinPath(dir, io.config), ZipPath(dir, io.config)))
  }

  /** What `load_path` produces. */
  function LoadPathSpec(io: AssetIoZip, host: Host, path: AssetPath): Exit<Result<seq<Byte>, AssetIoError>>
  {
    match Bundle(io, host)
    case Panic(message) => Panic(message)
    case Return(bundle) => LoadSpec(bundle, io.fallback, path)
  }

  /** `load_path`: locates and opens the bundle afresh, then serves the
      entry from it or delegates to the fallback. */
  method LoadPath(io: AssetIoZip, host: Host, path: AssetPath)
    returns (r: Exit<Result<seq<Byte>, AssetIoError>>)
    ensures r == LoadPathSpec(io, host, path)
  {
    var bundle := Bundle(io, host);
    if bundle.Panic? {
      return Panic(bundle.message);
    }
    r := LoadFromBundle(bundle.value, io.fallback, path);
  }

  function ReadDirectory(io: AssetIoZip, host: Host, path: AssetPath): Result<seq<AssetPath>, AssetIoError>
  {
    io.fallback.readDirectory(path)
  }

  function IsDirectory(io: AssetIoZip, host: Host, path: AssetPath): bool
  {
    io.fallback.isDirectory(path)
  }

  function WatchPathForChanges(io: AssetIoZip, host: Host, path: AssetPath): Result<(), AssetIoError>
  {
    io.fallback.watchPathForChanges(path)
  }

  function WatchForChanges(io: AssetIoZip, host: Host): Result<(), AssetIoError>
  {
    io.fallback.watchForChanges
  }

  /** The non-loading operations forward to the fallback in every host,
      even one whose executable cannot be located (they never look for the
      bundle, so they never panic). */
  lemma ForwardersIgnoreBundle(io: AssetIoZip, host: Host, other: Host, path: AssetPath)
    ensures ReadDirectory(io, host, path) == ReadDirectory(io, other, path) == io.fallback.readDirectory(path)
    ensures IsDirectory(io, host, path) == IsDirectory(io, other, path) == io.fallback.isDirectory(path)
    ensures WatchPathForChanges(io, host, path) == WatchPathForChanges(io, other, path)
                                                == io.fallback.watchPathForChanges(path)
    ensures WatchForChanges(io, host) == WatchForChanges(io, other) == io.fallback.watchForChanges
  {
  }

  /** Every load panics when the executable's directory cannot be
      determined, before any file is looked at. */
  lemma LoadPathExePanics(io: AssetIoZip, host: Host, path: AssetPath)
    requires !(host.currentExe.ExeAt? && host.currentExe.parent.Some? && host.currentExe.parent.value.Utf8?)
    ensures LoadPathSpec(io, host, path).Panic?
  {
  }

  /** Beside the executable, the `.bin` file wins over the `.zip` file and
      is read through `Xor`. */
  lemma BinTakesPrecedence(io: AssetIoZip, host: Host, dir: string, bytes: seq<Byte>)
    requires host.currentExe == ExeAt(Some(Utf8(dir)))
    requires BinPath(dir, io.config) in host.fs && ZipPath(dir, io.config) in host.fs
    requires host.fs[BinPath(dir, io.config)] == Present(bytes)
    ensures Bundle(io, host) == Return(host.parse(XorIo.XorAll(bytes)))
  {
  }

  /** An entry found in the bundle is served with exactly its stored
      bytes; an error while reading it is returned. */
  lemma LoadPathHit(io: AssetIoZip, host: Host, name: string, archive: Archive,
                    data: seq<Byte>, fault: Option<IoError>)
    requires Bundle(io, host) == Return(Some(archive))
    requires name in archive && archive[name] == Readable(data, fault)
    ensures fault.None? ==> LoadPathSpec(io, host, Utf8(name)) == Return(Ok(data))
    ensures fault.Some? ==> LoadPathSpec(io, host, Utf8(name)) == Return(Err(AssetIoError.Io(fault.value)))
  {
  }

  /** A located executable with no bundle beside it, a bundle that cannot
      be opened or parsed, or an entry `by_name` cannot give: the result is
      exactly the fallback's. */
  lemma LoadPathDelegates(io: AssetIoZip, host: Host, path: AssetPath)
    requires Bundle(io, host).Return?
    requires || Bundle(io, host).value.None?
             || (path.Utf8? && ByName(Bundle(io, host).value.value, path.text).Err?)
    ensures LoadPathSpec(io, host, path) == Return(io.fallback.loadPath(path))
  {
  }

  /** A requested path that is not unicode panics when a bundle is open,
      rather than falling back. */
  lemma NonUnicodePathPanics(io: AssetIoZip, host: Host, raw: seq<Byte>)
    requires Bundle(io, host).Return? && Bundle(io, host).value.Some?
    ensures LoadPathSpec(io, host, NonUtf8(raw)) == Panic("non-unicode filename")
  {
  }
}
