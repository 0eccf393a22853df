/** The resolution logic that both `AssetIo` implementations share
    (src/lib.rs and bevy_assetio_zip/src/lib.rs hold the same code, differing
    only in where they look for the bundle): choose the bundle file, open it
    (through `Xor` when obfuscated), parse it as an archive, look the
    requested asset up in it, and otherwise hand the request to the fallback
    `AssetIo`. */
module AssetResolve {
  import opened Common
  import opened ZipModel
  import XorIo

  /** A `std::path::Path`: unicode text, or operating-system bytes that are
      not valid unicode (`to_str` gives `None` for those). */
  datatype AssetPath = Utf8(text: string) | NonUtf8(raw: seq<Byte>)

  function ToStr(p: AssetPath): Option<string>
  {
    match p
    case Utf8(text) => Some(text)
    case NonUtf8(_) => None
  }

  /** `bevy::asset::AssetIoError`. */
  datatype AssetIoError =
    | NotFound(path: AssetPath)
    | Io(error: IoError)
    | PathWatchError(path: AssetPath)

  /** The fallback `AssetIo` (the platform default loader): only its five
      operations are visible, as functions of the request. */
  datatype Fallback = Fallback(
    loadPath: AssetPath -> Result<seq<Byte>, AssetIoError>,
    readDirectory: AssetPath -> Result<seq<AssetPath>, AssetIoError>,
    isDirectory: AssetPath -> bool,
    watchPathForChanges: AssetPath -> Result<(), AssetIoError>,
    watchForChanges: Result<(), AssetIoError>)

  /** What `Path::exists` and `OpenOptions::open` find at a path that
      exists: a file with these contents, or something that cannot be opened
      for reading. A path that does not exist is not in the map. */
  datatype FsNode = Present(contents: seq<Byte>) | Unopenable(error: IoError)

  type FileSystem = map<string, FsNode>

  /** `std::env::current_exe()`: unavailable, or a path whose parent
      directory may be missing. */
  datatype CurrentExe = ExeUnavailable | ExeAt(parent: Option<AssetPath>)

  /** The world an asset request runs in: the file system, the archive
      parser (`ZipArchive::new`, which may fail) and the executable's
      location. Each request sees the world afresh, so a bundle that appears,
      disappears or is replaced between requests is picked up. */
  datatype Host = Host(fs: FileSystem, parse: seq<Byte> -> Option<Archive>, currentExe: CurrentExe)

  /** The bundle file chosen, and whether it is obfuscated. */
  datatype Candidate = Candidate(path: string, obfuscated: bool)

  /** The choice between the two candidate files: the obfuscated `.bin`
      file whenever it exists, else the plain `.zip` file, else none. */
  function Locate(fs: FileSystem, binPath: string, zipPath: string): (c: Option<Candidate>)
    ensures binPath in fs ==> c == Some(Candidate(binPath, true))
    ensures binPath !in fs && zipPath in fs ==> c == Some(Candidate(zipPath, false))
    ensures binPath !in fs && zipPath !in fs ==> c == None
  {
    if binPath in fs then Some(Candidate(binPath, true))
    else if zipPath in fs then Some(Candidate(zipPath, false))
    else None
  }

  /** Opening the chosen file and parsing it as an archive: a file that
      cannot be opened, or does not parse, gives no archive. An obfuscated
      file is read through `Xor`, so the parser sees every byte XORed with
      the key. */
  function OpenBundle(host: Host, c: Candidate): (a: Option<Archive>)
    ensures c.path !in host.fs || host.fs[c.path].Unopenable? ==> a == None
    ensures c.path in host.fs && host.fs[c.path].Present? ==>
      a == host.parse(if c.obfuscated then XorIo.XorAll(host.fs[c.path].contents)
                      else host.fs[c.path].contents)
  {
    if c.path !in host.fs then None
    else match host.fs[c.path]
      case Unopenable(_) => None
      case Present(bytes) => host.parse(if c.obfuscated then XorIo.XorAll(bytes) else bytes)
  }

  /** `bundle()` once the two candidate paths are known. */
  function Resolve(host: Host, binPath: string, zipPath: string): Option<Archive>
  {
    match Locate(host.fs, binPath, zipPath)
    case None => None
    case Some(c) => OpenBundle(host, c)
  }

  /** The result `load_path` gives once `bundle()` has run: without a
      bundle, or when `by_name` fails for any reason, the fallback's result
      for the same path; with an entry, its full bytes, or the error reading
      it ended with. The path must be unicode once a bundle is open. */
  function LoadSpec(bundle: Option<Archive>, fallback: Fallback, path: AssetPath): (r: Exit<Result<seq<Byte>, AssetIoError>>)
    ensures r.Panic? <==> bundle.Some? && path.NonUtf8?
    ensures r.Return? && r.value != fallback.loadPath(path) ==>
      bundle.Some? && path.Utf8? && ByName(bundle.value, path.text).Ok?
    ensures bundle.Some? && path.Utf8? && path.text in bundle.value && bundle.value[path.text].Readable? ==>
      r == Return(if bundle.value[path.text].fault.Some? then Err(AssetIoError.Io(bundle.value[path.text].fault.value))
                  else Ok(bundle.value[path.text].data))
  {
    match bundle
    case None => Return(fallback.loadPath(path))
    case Some(archive) =>
      match ToStr(path)
      case None => Panic("non-unicode filename")
      case Some(name) =>
        match ByName(archive, name)
        case Err(_) => Return(fallback.loadPath(path))
        case Ok(entry) =>
          if entry.fault.Some? then Return(Err(AssetIoError.Io(entry.fault.value)))
          else Return(Ok(entry.data))
  }

  /** The size of the reads `read_to_end` issues. */
  const ReadChunk: nat := 32

  /** The body of `load_path` after `bundle()`: probes the entry with
      `by_name`, then opens it again and reads it to the end into a growing
      buffer; a read error is returned, not answered from the fallback. */
  method LoadFromBundle(bundle: Option<Archive>, fallback: Fallback, path: AssetPath)
    returns (r: Exit<Result<seq<Byte>, AssetIoError>>)
    ensures r == LoadSpec(bundle, fallback, path)
  {
    if bundle.None? {
      return Return(fallback.loadPath(path));
    }
    var archive := bundle.value;
    var name := ToStr(path);
    if name.None? {
      return Panic("non-unicode filename");
    }
    var hasFile := ByName(archive, name.value).Ok?;
    if !hasFile {
      return Return(fallback.loadPath(path));
    }
    var entry := ByName(archive, name.value).value;
    var file := new EntryReader(entry.data, entry.fault);
    var buf: seq<Byte> := [];
    while true
      invariant file.pos <= |file.data|
      invariant buf == file.data[..file.pos]
      decreases |file.data| - file.pos
    {
      var chunk := file.Read(ReadChunk);
      if chunk.Err? {
        return Return(Err(AssetIoError.Io(chunk.error)));
      }
      if chunk.value == [] {
        assert file.pos == |file.data| && file.fault.None?;
        break;
      }
      buf := buf + chunk.value;
    }
    assert buf == entry.data;
    r := Return(Ok(buf));
  }
}
