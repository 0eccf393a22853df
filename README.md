# bevy_assetio_zip, modelled in Dafny

This project models the core of the `bevy_assetio_zip` repository. The
repository lets a Bevy game load its assets from one zip bundle. The bundle is
optionally obfuscated by XOR-ing every byte with `0x55`. Every request the
bundle cannot serve goes to the platform's default asset loader (the
*fallback*). The model covers both halves of the system:

- **Serving.**
  - `Xor` (src/xor.rs) is a reader/writer/seeker wrapper.
  - `AdvancedAssetIo` (src/lib.rs) looks for the bundle in the working
    directory.
  - `AssetIoZip` (bevy_assetio_zip/src/lib.rs) looks for it beside the
    running executable.
- **Bundling.**
  - `zip_dir`, `bundle_assets` and `bundle_crate_assets` come from
    bevy_assetio_zip_bundler/src/lib.rs, together with that crate's
    `asset_config.toml` configuration.
  - The repository's own build.rs has its own copies of the configuration
    types and of `zip_dir`.

The modules follow the source files:

| file | module | models |
|---|---|---|
| common.dfy | `Common` | bytes, `Option`, `Result`, `Exit` (a normal return or a panic with its message), `std::io::ErrorKind` |
| xor_io.dfy | `XorIo` | src/xor.rs. `XorStream` is the `Xor` wrapper, a class around the stream it wraps. `ByteStream` is that stream: a file's contents and its cursor. |
| zip_model.dfy | `ZipModel` | what the code uses of the `zip` crate: `ZipArchive::by_name`, entry reads, and `ZipWriter` as a class that collects records |
| asset_resolve.dfy | `AssetResolve` | the bundle lookup and `load_path` logic, which the two `AssetIo` implementations share line for line |
| advanced_io.dfy | `AdvancedIo` | `AdvancedAssetIo` of src/lib.rs |
| asset_io_zip.dfy | `AssetIoZip` | `AssetIoZip` of bevy_assetio_zip/src/lib.rs |
| toml.dfy | `Toml` | the key/value table `toml::from_slice` yields, and the load-or-default idiom both configuration loaders use |
| dir_bundler.dfy | `DirBundler` | `zip_dir`, which is the same in the bundler crate and in build.rs, and the machine a bundling run sees |
| bundler.dfy | `Bundler` | bevy_assetio_zip_bundler/src/lib.rs |
| build_script.dfy | `BuildScript` | build.rs |
| round_trip.dfy | `RoundTrip` | bundling followed by serving |

How the world outside the program is represented:

- **Fallback loader.** A record of five functions.
- **File system.** A map from path strings to contents.
- **Environment variables.** A map.
- **Current executable.** A datatype.
- **Asset directory walk.** A sequence of walk items.
- **Zip byte format.** Two function parameters:
  - `encode`, the writer's serialisation.
  - `parse`, `ZipArchive::new`, which may fail.

  The end-to-end lemmas assume `ZipModel.Faithful(parse, encode)`: parsing a
  serialised archive gives back the archive of the records written.
- **Panics.** `expect` and `unwrap` are `Exit.Panic(message)`.

Where this model departs from a plain reading of the crates' documentation,
it follows the code:

- **A broken bundle falls back to the fallback loader.** A bundle file that
  exists but cannot be opened, or is not a valid archive, gives no bundle,
  because of `.ok()?` at src/lib.rs:71 and 78 and at
  bevy_assetio_zip/src/lib.rs:203 and 210. No error is surfaced.
- **A broken `.bin` hides the `.zip`.** A broken `.bin` is not replaced by a
  `.zip` beside it; the `.zip` is never tried.
- **A failed entry probe also falls back.** A `by_name` failure of any kind
  goes to the fallback, not just "entry missing".
- **Only reading a found entry surfaces an error.** An error while reading an
  entry that was found is returned, through `?`.
- **build.rs reads a different configuration.** Its `Compression` is not
  renamed, so it accepts `None`, `Bzip2` and `Deflate`, not the bundler
  crate's lower-case names. It has no `out-dir` key, so such a key is
  rejected as unknown.

## Model

| member | source | states |
|---|---|---|
| XorIo.XorByteInvolutive | src/xor.rs:3 | the key is `0x55` and XOR-ing with it twice restores a byte |
| XorIo.XorByte | src/xor.rs:15 | every byte is changed by the transform, and transforming the stored byte again gives the original |
| XorIo.XorAll | src/xor.rs:24-30 | the XORed copy handed to the inner writer has the length of the input |
| XorIo.XorAllInvolutive | src/xor.rs:22-31 | transforming a byte sequence twice gives it back, so the same wrapper encodes and decodes |
| XorIo.XorAllAppend | src/xor.rs:22-31 | transforming a concatenation is concatenating the transforms, so the transform does not depend on how writes are split |
| XorIo.XorAllSlice | src/xor.rs:8-19 | transforming a window equals the window of the transform, so the transform does not depend on position |
| XorIo.ReadCount | src/xor.rs:11 | the inner read takes as many bytes as fit, none at or past the end, and fewer than the buffer only at the end |
| XorIo.Filled | src/xor.rs:11 | after the inner read, the first `count` bytes of the buffer are the stream's and the rest are untouched |
| XorIo.Overwrite | src/xor.rs:24-30 | a write at the cursor replaces the bytes there and grows the file; a gap reads as zeros |
| XorIo.OverwriteConsecutive | src/xor.rs:22-31 | two consecutive writes store what one write of both pieces stores |
| XorIo.XorWritesCompose | src/xor.rs:22-31 | writing through `Xor` in two pieces stores the same bytes as writing everything through `Xor` at once |
| XorIo.XorOverwrite | src/xor.rs:22-31 | a write through `Xor` at any cursor inside the file, a seek-back patch included, stores the transform of what the plain write would store |
| XorIo.XorGapReadsKey | src/xor.rs:22-31 | a write past the end leaves a gap of stored zeros, which reads back through `Xor` as `0x55` where a plain file reads `0` |
| XorIo.ByteStream.Read | src/xor.rs:11 | the inner stream's read: the count, the advanced cursor and the filled buffer; its error leaves everything unchanged |
| XorIo.ByteStream.Write | src/xor.rs:24-30 | the inner stream's write: the new contents, the advanced cursor, and the count written |
| XorIo.ByteStream.Seek | src/xor.rs:40 | the inner stream's seek: the new position, or `InvalidInput` for a position before the start |
| XorIo.XorStream.Read | src/xor.rs:8-19 | the inner read's count or error is returned unchanged; on success the whole buffer is XORed, including the bytes past the count |
| XorIo.XorStream.Write | src/xor.rs:22-31 | the inner writer receives the XORed copy; its count or error is returned |
| XorIo.XorStream.Flush | src/xor.rs:33-35 | flushing is the inner stream's |
| XorIo.XorStream.Seek | src/xor.rs:38-42 | seeking moves the inner cursor exactly as an inner seek would |
| XorIo.XorReadContents | src/xor.rs:8-19 | a byte within the count is the stream byte XOR `0x55`; a byte past it is the caller's old byte XOR `0x55` |
| XorIo.XorReadWindow | src/xor.rs:8-19 | the bytes within the count are the transform of a window of the stream |
| XorIo.SeekThenRead | src/xor.rs:8-42 | opening stored bytes through `Xor`, seeking anywhere and reading gives the transform of the stored bytes at that offset |
| XorIo.WriteThenRead | src/xor.rs:8-42 | bytes written through `Xor` and read back through `Xor`, from any offset, are the original bytes |
| ZipModel.ByName | src/lib.rs:86-93 | `by_name` succeeds exactly for a present, openable entry and returns it; a missing name gives `FileNotFound` |
| ZipModel.EntryReader.Read | src/lib.rs:94-95 | a read of an entry returns its next bytes; at the end, its fault or end of file |
| ZipModel.RecordKey | bevy_assetio_zip_bundler/src/lib.rs:162-167 | a directory marker is stored under a name ending in `/`, and a file under its own name |
| ZipModel.ArchiveOfKeys | bevy_assetio_zip_bundler/src/lib.rs:147-170 | the written archive has an entry under a key exactly when some record has that key |
| ZipModel.ArchiveOfLastWins | bevy_assetio_zip_bundler/src/lib.rs:147-170 | a record that no later record shadows is what the archive holds under its key |
| ZipModel.ZipWriter.StartFile | bevy_assetio_zip_bundler/src/lib.rs:156 | a new empty file entry is opened |
| ZipModel.ZipWriter.WriteAll | bevy_assetio_zip_bundler/src/lib.rs:160 | bytes are appended to the open file entry; with none open, the write is refused and nothing changes |
| ZipModel.ZipWriter.AddDirectory | bevy_assetio_zip_bundler/src/lib.rs:166 | a directory marker is appended |
| ZipModel.ZipWriter.Finish | bevy_assetio_zip_bundler/src/lib.rs:170 | the image is the serialisation of the records written |
| AssetResolve.Locate | src/lib.rs:63-69 | the `.bin` candidate whenever it exists, else the `.zip` one, else none |
| AssetResolve.OpenBundle | src/lib.rs:71-78 | a file that cannot be opened gives no bundle; otherwise the parse of its bytes, XORed when obfuscated |
| AssetResolve.LoadSpec | src/lib.rs:85-103 | a load panics exactly when a bundle is open and the path is not unicode; any answer other than the fallback's comes from an entry `by_name` found, and a found entry gives its bytes or its read error |
| AssetResolve.LoadFromBundle | src/lib.rs:85-103 | the loop that reads an entry to the end returns exactly the entry's bytes, or its read error; every other outcome follows `LoadSpec` |
| AdvancedIo.DefaultConfig | src/lib.rs:31-37 | the default file name is `assets` |
| AdvancedIo.BinPath | src/lib.rs:60 | the obfuscated candidate is the file name followed by `.bin` |
| AdvancedIo.ZipPath | src/lib.rs:61 | the plain candidate is the file name followed by `.zip` |
| AdvancedIo.CandidatesDistinct | src/lib.rs:60-61 | the two candidate files are distinct |
| AdvancedIo.Bundle | src/lib.rs:59-79 | the `.bin` file wins and is read through `Xor`; else the `.zip` file; else no bundle |
| AdvancedIo.LoadPath | src/lib.rs:83-105 | `load_path` re-resolves the bundle and then behaves as `LoadSpec` |
| AdvancedIo.ReadDirectory | src/lib.rs:107-112 | no contract of its own: the call goes to the fallback; `ForwardersIgnoreBundle` states it for every host |
| AdvancedIo.IsDirectory | src/lib.rs:114-116 | no contract of its own: the call goes to the fallback; `ForwardersIgnoreBundle` states it for every host |
| AdvancedIo.WatchPathForChanges | src/lib.rs:118-122 | no contract of its own: the call goes to the fallback; `ForwardersIgnoreBundle` states it for every host |
| AdvancedIo.WatchForChanges | src/lib.rs:124-128 | no contract of its own: the call goes to the fallback; `ForwardersIgnoreBundle` states it for every host |
| AdvancedIo.ForwardersIgnoreBundle | src/lib.rs:107-128 | the four other operations give the fallback's answer in every host, whatever the bundle |
| AdvancedIo.BinTakesPrecedence | src/lib.rs:59-79 | with both files present, the archive is parsed from the XORed `.bin` bytes |
| AdvancedIo.BrokenBinFallsBack | src/lib.rs:63-78 | a `.bin` that fails to open or parse gives no bundle, even beside a `.zip`, and loads go to the fallback |
| AdvancedIo.LoadPathHit | src/lib.rs:90-97 | a found entry is served with exactly its bytes |
| AdvancedIo.LoadPathReadError | src/lib.rs:95 | an error reading a found entry is returned, not answered from the fallback |
| AdvancedIo.LoadPathDelegates | src/lib.rs:85-103 | with no bundle, or a failing `by_name`, the result is exactly the fallback's |
| AdvancedIo.NonUnicodePath | src/lib.rs:85-92 | a non-unicode path panics once a bundle is open, and goes to the fallback otherwise |
| AdvancedIo.NoBundleAllDelegate | src/lib.rs:59-116 | with neither file present, loading, listing and directory checks are the fallback's |
| AssetIoZip.DefaultConfig | bevy_assetio_zip/src/lib.rs:155-161 | the default file name is `assets` |
| AssetIoZip.ExeDir | bevy_assetio_zip/src/lib.rs:184-189 | the executable's directory, or one of three panics: no executable path, no parent, not unicode |
| AssetIoZip.BinPath | bevy_assetio_zip/src/lib.rs:190-191 | the obfuscated candidate lies in the executable's directory and is named `{file_name}.bin` |
| AssetIoZip.ZipPath | bevy_assetio_zip/src/lib.rs:192-193 | the plain candidate lies in the executable's directory and is named `{file_name}.zip` |
| AssetIoZip.Bundle | bevy_assetio_zip/src/lib.rs:183-211 | the same choice as `AdvancedAssetIo`, among `{exe_dir}/{file_name}.bin` and `.zip`, after the directory lookup's panics |
| AssetIoZip.LoadPath | bevy_assetio_zip/src/lib.rs:215-237 | `load_path` propagates the lookup's panic, then behaves as `LoadSpec` |
| AssetIoZip.ReadDirectory | bevy_assetio_zip/src/lib.rs:239-244 | no contract of its own: the call goes to the fallback; `ForwardersIgnoreBundle` states it for every host |
| AssetIoZip.IsDirectory | bevy_assetio_zip/src/lib.rs:246-248 | no contract of its own: the call goes to the fallback; `ForwardersIgnoreBundle` states it for every host |
| AssetIoZip.WatchPathForChanges | bevy_assetio_zip/src/lib.rs:250-254 | no contract of its own: the call goes to the fallback; `ForwardersIgnoreBundle` states it for every host |
| AssetIoZip.WatchForChanges | bevy_assetio_zip/src/lib.rs:256-260 | no contract of its own: the call goes to the fallback; `ForwardersIgnoreBundle` states it for every host |
| AssetIoZip.ForwardersIgnoreBundle | bevy_assetio_zip/src/lib.rs:239-260 | the four other operations give the fallback's answer and never panic |
| AssetIoZip.LoadPathExePanics | bevy_assetio_zip/src/lib.rs:184-189 | every load panics when the executable's directory cannot be found as unicode |
| AssetIoZip.BinTakesPrecedence | bevy_assetio_zip/src/lib.rs:195-208 | beside the executable, the `.bin` file wins and is read through `Xor` |
| AssetIoZip.LoadPathHit | bevy_assetio_zip/src/lib.rs:217-229 | a found entry is served with its bytes, or with its read error |
| AssetIoZip.LoadPathDelegates | bevy_assetio_zip/src/lib.rs:217-235 | no bundle or a failing `by_name`: the result is exactly the fallback's |
| AssetIoZip.NonUnicodePathPanics | bevy_assetio_zip/src/lib.rs:217-221 | a non-unicode request path panics once a bundle is open |
| Toml.StringField | bevy_assetio_zip_bundler/src/lib.rs:49-61 | a present string field is taken, and a missing one defaults |
| Toml.BoolField | bevy_assetio_zip_bundler/src/lib.rs:49-61 | a present boolean field is taken, and a missing one defaults |
| Toml.LoadOrDefault | bevy_assetio_zip_bundler/src/lib.rs:86-90 | an unreadable file gives the default; a file that does not parse or is rejected panics with "Could not parse asset_config.toml" |
| DirBundler.Extension | bevy_assetio_zip_bundler/src/lib.rs:93 | the extension is `bin` exactly when obfuscating, and `zip` otherwise |
| DirBundler.ItemRecords | bevy_assetio_zip_bundler/src/lib.rs:147-167 | an item panics exactly when it is a walk error or an unreadable file; the root adds nothing; any other item adds one record under its own name, a file record with its bytes exactly for a regular file |
| DirBundler.PanicPersists | bevy_assetio_zip_bundler/src/lib.rs:147-148 | once an item panics, the whole walk ends with that panic |
| DirBundler.BundleStep | bevy_assetio_zip_bundler/src/lib.rs:147-167 | each item extends the records of the items before it, or ends the walk with its panic |
| DirBundler.WriteTarget | bevy_assetio_zip_bundler/src/lib.rs:135-141 | the target file ends up holding the image, XORed exactly when obfuscating |
| DirBundler.ZipDir | bevy_assetio_zip_bundler/src/lib.rs:127-171 | `zip_dir` leaves in the target file the serialised records of the walk, transformed when obfuscating; a file that cannot be created, a walk error or an unreadable file panics (build.rs:75-119 is the same function, with the `Xor` of src/xor.rs) |
| DirBundler.ItemKeysDistinct | bevy_assetio_zip_bundler/src/lib.rs:154-167 | distinct walked paths are stored under distinct keys |
| DirBundler.BundleRecordsSnoc | bevy_assetio_zip_bundler/src/lib.rs:147-168 | a walk bundled without a panic is its prefix's records followed by its last item's |
| DirBundler.ArchiveAfterItem | bevy_assetio_zip_bundler/src/lib.rs:154-167 | the root adds nothing; any other item sets the entry under its key |
| DirBundler.BundledKeys | bevy_assetio_zip_bundler/src/lib.rs:147-168 | the archive has an entry under a key exactly when some walked path is stored under it |
| DirBundler.BundledItem | bevy_assetio_zip_bundler/src/lib.rs:154-167 | every walked file reads back as exactly its bytes; every non-root directory `d` as an empty entry `d/` |
| Bundler.DecodeCompression | bevy_assetio_zip_bundler/src/lib.rs:28-36 | exactly `none`, `bzip2` and `deflate` are accepted, each as the mode it names |
| Bundler.CompressionNameRoundTrip | bevy_assetio_zip_bundler/src/lib.rs:28-36 | every mode reads back from its name |
| Bundler.IntoMethod | bevy_assetio_zip_bundler/src/lib.rs:39-47 | the archive method is `Stored` exactly for `none` |
| Bundler.IntoMethodInjective | bevy_assetio_zip_bundler/src/lib.rs:38-47 | distinct modes give distinct archive methods, and only `none` stores |
| Bundler.DefaultConfig | bevy_assetio_zip_bundler/src/lib.rs:63-74 | the defaults are `assets`, bzip2, no obfuscation, no debug bundles, `./target` |
| Bundler.DecodeConfig | bevy_assetio_zip_bundler/src/lib.rs:49-61 | the table is accepted exactly when every key is known and well typed; each field comes from the table or from the default |
| Bundler.TakenFromUnique | bevy_assetio_zip_bundler/src/lib.rs:49-61 | a table determines at most one configuration |
| Bundler.DecodeEncodeConfig | bevy_assetio_zip_bundler/src/lib.rs:49-74 | every configuration written out in full reads back unchanged |
| Bundler.DecodeEdges | bevy_assetio_zip_bundler/src/lib.rs:49-74 | an empty table gives the defaults, and an unknown key is rejected |
| Bundler.LoadConfig | bevy_assetio_zip_bundler/src/lib.rs:86-90 | loading panics exactly for a file that is not TOML or whose table is rejected; an unreadable file gives the defaults; a loaded configuration is taken from the file's table |
| Bundler.BundleFile | bevy_assetio_zip_bundler/src/lib.rs:93-95 | the bundle lies in `out_dir` and is named `{file_name}.bin` or `.zip` |
| Bundler.ShouldBundle | bevy_assetio_zip_bundler/src/lib.rs:98 | no contract of its own: `release`, or debug bundles asked for; `BundlesExactlyWhenAsked` states what it decides |
| Bundler.BundleAssets | bevy_assetio_zip_bundler/src/lib.rs:108-122 | `bundle_assets` is `zip_dir` with the given settings |
| Bundler.BundleCrateAssets | bevy_assetio_zip_bundler/src/lib.rs:80-106 | the run follows `BundleCrateAssetsSpec`: environment, configuration, output directory, then bundling when asked |
| Bundler.BundlesExactlyWhenAsked | bevy_assetio_zip_bundler/src/lib.rs:93-98 | bundling happens exactly for `release` or when debug bundles are asked for, into `{out_dir}/{file_name}.bin` or `.zip` |
| Bundler.OutDirAlwaysCreated | bevy_assetio_zip_bundler/src/lib.rs:96-98 | failing to create the output directory panics even when nothing would be bundled |
| Bundler.ConfigOutcomes | bevy_assetio_zip_bundler/src/lib.rs:82-90 | a missing `CARGO_MANIFEST_DIR` panics; a rejected configuration panics with the parse message; an unreadable one gives the defaults |
| BuildScript.DecodeCompression | build.rs:9-14 | exactly `None`, `Bzip2` and `Deflate` are accepted |
| BuildScript.CompressionNameRoundTrip | build.rs:9-14 | every mode reads back from its name |
| BuildScript.LowerCaseNamesRejected | build.rs:9-14 | the bundler crate's lower-case names are rejected |
| BuildScript.IntoMethod | build.rs:16-24 | the archive method is `Stored` exactly for `None` |
| BuildScript.IntoMethodInjective | build.rs:16-24 | distinct modes give distinct archive methods, and only `None` stores |
| BuildScript.DefaultConfig | build.rs:37-46 | the defaults are `assets`, Bzip2, no obfuscation, no debug bundles |
| BuildScript.DecodeConfig | build.rs:26-35 | the table is accepted exactly when every key is one of the four known ones and well typed; each field comes from the table or from the default |
| BuildScript.TakenFromUnique | build.rs:26-35 | a table determines at most one configuration |
| BuildScript.DecodeEncodeConfig | build.rs:26-46 | every configuration written out in full reads back unchanged |
| BuildScript.DecodeEdges | build.rs:26-46 | an empty table gives the defaults; an unknown key, `out-dir` included, is rejected |
| BuildScript.LoadConfig | build.rs:52-57 | loading panics exactly for a file that is not TOML or whose table is rejected; an unreadable file gives the defaults; a loaded configuration is taken from the file's table |
| BuildScript.TargetPath | build.rs:58-65 | the bundle lies in `target/{profile}/` and is named `{file_name}.bin` or `.zip` |
| BuildScript.ShouldBundle | build.rs:61 | no contract of its own: `release`, or debug bundles asked for; `BundlesExactlyWhenAsked` states what it decides |
| BuildScript.RunBuildScript | build.rs:50-70 | the run follows `BuildSpec`: configuration, `PROFILE`, then bundling when asked |
| BuildScript.BundlesExactlyWhenAsked | build.rs:58-66 | bundling happens exactly for `release` or when debug bundles are asked for, into `target/{profile}/{file_name}.bin` or `.zip` |
| RoundTrip.OpenWrittenBundle | src/lib.rs:71-78 | a bundle written by `zip_dir` and opened the way it was written parses to the archive of the walked records |
| RoundTrip.LoadFromWalkArchive | src/lib.rs:85-103 | from such an archive, every walked file loads as its bytes, every directory `d` as empty `d/`, and every other name from the fallback |
| RoundTrip.BundledWalkRecords | bevy_assetio_zip_bundler/src/lib.rs:135-168 | a `zip_dir` run that did not panic had a creatable target and no failed item |
| RoundTrip.AdvancedServesBundle | src/lib.rs:59-105 | `AdvancedAssetIo` serves a bundle `zip_dir` wrote: files with their bytes, everything else from the fallback |
| RoundTrip.ZipServesBundle | bevy_assetio_zip/src/lib.rs:183-237 | the same for `AssetIoZip` with the bundle beside the executable |
| RoundTrip.BundlerFileIsZipCandidate | bevy_assetio_zip_bundler/src/lib.rs:93-95 | the bundler crate writes the file `AssetIoZip` looks for when the executable is in `out_dir` |
| RoundTrip.BuildTargetIsZipCandidate | build.rs:58-65 | build.rs writes the file `AssetIoZip` looks for when the executable is in `target/{profile}` |
| RoundTrip.BuildThenServe | build.rs:50-70 | end to end: every asset file bundled by build.rs loads with exactly its bytes |
| RoundTrip.BundlerThenServe | bevy_assetio_zip_bundler/src/lib.rs:80-106 | end to end: every asset file bundled by `bundle_crate_assets` loads with exactly its bytes |

## Left out

- The zip byte format, its compression codecs and its checksums are not modelled. They are replaced by `encode`/`parse` parameters, and the end-to-end lemmas assume `Faithful`.
- `BufReader` and `BufWriter` around the bundle are not modelled. They only batch reads and writes. `XorWritesCompose` and `SeekThenRead` show that the `Xor` transform does not care how its stream is split or where it is read from.
- The zip writer is modelled as collecting records and serialising them at `finish`, not as emitting bytes incrementally and seeking back to patch headers. Such writes through `Xor` store the same bytes: consecutive ones by `XorWritesCompose`, and one at any cursor inside the file, a seek-back patch included, by `XorOverwrite`. A write past the end would differ, since its gap reads back as `0x55` (`XorGapReadsKey`); the zip writer seeks back only into bytes it has already written.
- `Plugin::build` of both crates is not modelled. It is registration with Bevy: the `IoTaskPool` lookup, the configuration resource or its default, and the `AssetServer` construction.
- The `BoxedFuture`/`async` wrapping of `load_path` and cancellation are not modelled. The model is the synchronous body.
- The order in which `walkdir` visits paths is not modelled. The walk is an input sequence.
- `strip_prefix(source_dir).unwrap()` is taken to succeed, because every walked path lies under the root.
- Relative paths are not resolved against the working directory. The file system map is keyed by the path strings the code builds.
- `PathBuf::join` is modelled as appending `/` and the name (`cargoDir + "/assets"`, `cargoDir + "/asset_config.toml"`, at bevy_assetio_zip_bundler/src/lib.rs:83 and 94). For a `CARGO_MANIFEST_DIR` that already ends in `/`, `join` adds no second separator and the model's key differs from the real path.
- TOML syntax is not modelled, and neither are serde's error texts. A configuration panic is modelled by the `expect` message alone.
- An enum given as an inline table is not modelled.
- An environment variable that is present but not unicode is not modelled: the environment is a map of strings.
- `u64` and `usize` overflow in seek positions and `file.size()` is not modelled. Positions are unbounded naturals.
- The contents of a half-written target file after a panic are not modelled. A panic carries only its message.
- Errors from `start_file_from_path`, `add_directory_from_path`, `write_all` and `finish` on the target file (for example, a full disk) are not modelled. Only failing to create the file panics.
- `Xor` from the `xorio` crate, used by bevy_assetio_zip and by the bundler crate, is not part of this model. It is taken to be the transform of src/xor.rs.
- The `bundle-crate-assets` feature gate is not modelled, and neither are the example programs.
- XorIo.ByteStream.Flush: states only that a flush fails exactly when the stream is in error. An in-memory file buffers nothing.
