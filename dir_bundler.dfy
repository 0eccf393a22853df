/** `zip_dir`, which bevy_assetio_zip_bundler/src/lib.rs and build.rs both
    define as the same function (build.rs takes its `Xor` from src/xor.rs): walk the asset directory and write every file
    and directory into a new archive, through `Xor` when obfuscating. Also the
    environment the two bundling entry points run in. */
module DirBundler {
  import opened Common
  import opened ZipModel
  import XorIo
  import Toml

  /** What `is_file` says of a walked path, and for a regular file what
      `File::open` and `read_to_end` give (`None` when either fails). */
  datatype EntryKind = RegularFile(contents: Option<seq<Byte>>) | NotAFile

  /** One item of `WalkDir::new(source_dir)`: an error, or a path, given
      by its name relative to `source_dir` (the root itself has the empty
      name). */
  datatype WalkItem = WalkError | Visit(name: string, kind: EntryKind)

  /** The message of a failed `unwrap`. */
  const UnwrapPanic: string := "called `Result::unwrap()` on an `Err` value"

  /** The archive file's extension: `bin` for an obfuscated bundle, `zip`
      otherwise. */
  function Extension(obfuscate: bool): (ext: string)
    ensures ext == "bin" <==> obfuscate
    ensures ext == "zip" <==> !obfuscate
  {
    if obfuscate then "bin" else "zip"
  }

  /** What one walk item adds to the archive: a regular file becomes a file
      entry holding its bytes, any other non-root path a directory marker,
      the root nothing; a walk error or an unreadable file panics. */
  function ItemRecords(item: WalkItem, compression: CompressionMethod): (r: Exit<seq<ZipRecord>>)
    ensures r.Panic? <==> item.WalkError? || (item.kind.RegularFile? && item.kind.contents.None?)
    ensures r.Panic? ==> r.message == UnwrapPanic
    ensures r.Return? ==> (r.value == [] <==> |item.name| == 0 && item.kind.NotAFile?)
    ensures r.Return? && r.value != [] ==>
      && |r.value| == 1 && r.value[0].name == item.name && r.value[0].compression == compression
      && (r.value[0].FileRecord? <==> item.kind.RegularFile?)
      && (r.value[0].FileRecord? ==> r.value[0].data == item.kind.contents.value)
  {
    match item
    case WalkError => Panic(UnwrapPanic)
    case Visit(name, kind) =>
      match kind
      case RegularFile(contents) =>
        if contents.None? then Panic(UnwrapPanic)
        else Return([FileRecord(name, compression, contents.value)])
      case NotAFile =>
        if |name| != 0 then Return([DirRecord(name, compression)]) else Return([])
  }

  /** The records the loop of `zip_dir` gives the writer, item after item,
      or the panic of the first item that fails. */
  function BundleRecords(walk: seq<WalkItem>, compression: CompressionMethod): Exit<seq<ZipRecord>>
    decreases |walk|
  {
    if walk == [] then Return([])
    else
      match BundleRecords(walk[..|walk| - 1], compression)
      case Panic(message) => Panic(message)
      case Return(recs) =>
        match ItemRecords(walk[|walk| - 1], compression)
        case Panic(message) => Panic(message)
        case Return(more) => Return(recs + more)
  }

  /** The bytes `zip_dir` leaves in the target file: the serialised archive,
      every byte of it XORed when obfuscating; or the panic that ends it. */
  function ZipDirSpec(walk: seq<WalkItem>, canCreate: bool, compression: CompressionMethod,
                      obfuscate: bool, encode: seq<ZipRecord> -> seq<Byte>): Exit<seq<Byte>>
  {
    if !canCreate then Panic("Could not create archive file")
    else
      match BundleRecords(walk, compression)
      case Panic(message) => Panic(message)
      case Return(recs) => Return(if obfuscate then XorIo.XorAll(encode(recs)) else encode(recs))
  }

  /** Once a prefix of the walk has panicked, the whole walk panics with
      the same message: nothing after the failing item is written. */
  lemma {:induction false} PanicPersists(walk: seq<WalkItem>, n: nat, compression: CompressionMethod)
    requires n <= |walk|
    requires BundleRecords(walk[..n], compression).Panic?
    ensures BundleRecords(walk, compression) == BundleRecords(walk[..n], compression)
  {
    if n < |walk| {
      var init := walk[..|walk| - 1];
      assert init[..n] == walk[..n];
      PanicPersists(init, n, compression);
    } else {
      assert walk[..n] == walk;
    }
  }

  /** One more walk item extends the records of the items before it, or
      ends the walk with its panic. */
  lemma BundleStep(walk: seq<WalkItem>, i: nat, compression: CompressionMethod, recs: seq<ZipRecord>)
    requires i < |walk|
    requires BundleRecords(walk[..i], compression) == Return(recs)
    ensures ItemRecords(walk[i], compression).Return? ==>
      BundleRecords(walk[..i + 1], compression) == Return(recs + ItemRecords(walk[i], compression).value)
    ensures ItemRecords(walk[i], compression).Panic? ==>
      BundleRecords(walk, compression) == ItemRecords(walk[i], compression)
  {
    assert walk[..i + 1][..i] == walk[..i];
    if ItemRecords(walk[i], compression).Panic? {
      PanicPersists(walk, i + 1, compression);
    }
  }

  /** The target file behind the writer: the archive image lands in a new,
      empty file, through `Xor` when obfuscating. */
  method WriteTarget(image: seq<Byte>, obfuscate: bool) returns (contents: seq<Byte>)
    ensures contents == if obfuscate then XorIo.XorAll(image) else image
  {
    var archiveFile := new XorIo.ByteStream([]);
    if obfuscate {
      var writer := new XorIo.XorStream(archiveFile);
      var written := writer.Write(image);
    } else {
      var written := archiveFile.Write(image);
    }
    contents := archiveFile.data;
  }

  /** `zip_dir`: creates the target file and feeds the archive writer one
      walk item at a time, reading each regular file into a buffer that is
      cleared after the file is written, so every file entry holds exactly
      that file's bytes. */
  method ZipDir(walk: seq<WalkItem>, canCreate: bool, compression: CompressionMethod,
                obfuscate: bool, encode: seq<ZipRecord> -> seq<Byte>)
    returns (r: Exit<seq<Byte>>)
    ensures r == ZipDirSpec(walk, canCreate, compression, obfuscate, encode)
  {
    if !canCreate {
      return Panic("Could not create archive file");
    }
    var zip := new ZipWriter();
    var buffer: seq<Byte> := [];
    for i := 0 to |walk|
      invariant buffer == []
      invariant BundleRecords(walk[..i], compression) == Return(zip.records)
    {
      BundleStep(walk, i, compression, zip.records);
      var item := walk[i];
      if item.WalkError? {
        return Panic(UnwrapPanic);
      }
      if item.kind.RegularFile? {
        ghost var before := zip.records;
        zip.StartFile(item.name, compression);
        assert zip.records[..|zip.records| - 1] == before;
        if item.kind.contents.None? {
          return Panic(UnwrapPanic);
        }
        buffer := buffer + item.kind.contents.value;
        assert buffer == item.kind.contents.value;
        var written := zip.WriteAll(buffer);
        assert [] + buffer == buffer;
        buffer := [];
      } else if |item.name| != 0 {
        zip.AddDirectory(item.name, compression);
      } else {
        assert zip.records + [] == zip.records;
      }
    }
    assert walk[..|walk|] == walk;
    var image := zip.Finish(encode);
    var contents := WriteTarget(image, obfuscate);
    r := Return(contents);
  }

  /** The walks `WalkDir` produces: each path is visited once, and no
      relative name ends in a separator. */
  ghost predicate WellFormedWalk(walk: seq<WalkItem>)
  {
    && (forall i, j | 0 <= i < j < |walk| && walk[i].Visit? && walk[j].Visit? :: walk[i].name != walk[j].name)
    && (forall i | 0 <= i < |walk| && walk[i].Visit? :: !EndsWithSlash(walk[i].name))
  }

  /** The archive key a walk item is stored under, if it is stored. */
  function ItemKey(item: WalkItem): Option<string>
  {
    match item
    case WalkError => None
    case Visit(name, kind) =>
      match kind
      case RegularFile(_) => Some(name)
      case NotAFile => if |name| != 0 then Some(RecordKey(DirRecord(name, Stored))) else None
  }

  lemma ArchiveOfSnoc(recs: seq<ZipRecord>, rec: ZipRecord)
    ensures ArchiveOf(recs + [rec]) == ArchiveOf(recs)[RecordKey(rec) := RecordEntry(rec)]
  {
    assert (recs + [rec])[..|recs|] == recs;
  }

  lemma AppendSlashInjective(x: string, y: string)
    ensures x + "/" == y + "/" ==> x == y
  {
    if x + "/" == y + "/" {
      assert x == (x + "/")[..|x|] && y == (y + "/")[..|y|];
    }
  }

  /** Distinct well-formed walk items are stored under distinct keys. */
  lemma ItemKeysDistinct(a: WalkItem, b: WalkItem)
    requires a.Visit? && b.Visit? && a.name != b.name
    requires !EndsWithSlash(a.name) && !EndsWithSlash(b.name)
    requires ItemKey(a).Some? && ItemKey(b).Some?
    ensures ItemKey(a).value != ItemKey(b).value
  {
    AppendSlashInjective(a.name, b.name);
  }

  /** A walk that was bundled without a panic is its shorter prefix's
      records followed by its last item's. */
  lemma BundleRecordsSnoc(walk: seq<WalkItem>, compression: CompressionMethod)
    requires walk != [] && BundleRecords(walk, compression).Return?
    ensures BundleRecords(walk[..|walk| - 1], compression).Return?
    ensures ItemRecords(walk[|walk| - 1], compression).Return?
    ensures BundleRecords(walk, compression).value ==
      BundleRecords(walk[..|walk| - 1], compression).value + ItemRecords(walk[|walk| - 1], compression).value
  {
  }

  /** What one item's records do to the archive: nothing when it has no
      key, otherwise the entry under its key is set. */
  lemma ArchiveAfterItem(recs: seq<ZipRecord>, item: WalkItem, compression: CompressionMethod)
    requires ItemRecords(item, compression).Return?
    ensures ItemKey(item).None? ==>
      ArchiveOf(recs + ItemRecords(item, compression).value) == ArchiveOf(recs)
    ensures ItemKey(item).Some? ==>
      var more := ItemRecords(item, compression).value;
      && |more| == 1
      && RecordKey(more[0]) == ItemKey(item).value
      && ArchiveOf(recs + more) == ArchiveOf(recs)[RecordKey(more[0]) := RecordEntry(more[0])]
  {
    var more := ItemRecords(item, compression).value;
    if more == [] {
      assert recs + more == recs;
    } else {
      ArchiveOfSnoc(recs, more[0]);
      assert more == [more[0]];
    }
  }

  /** The bundled archive holds an entry under a key exactly when some walk
      item is stored under it: the root and failed items leave nothing. */
  lemma {:induction false} BundledKeys(walk: seq<WalkItem>, compression: CompressionMethod,
                                       recs: seq<ZipRecord>, k: string)
    requires BundleRecords(walk, compression) == Return(recs)
    ensures k in ArchiveOf(recs) <==> exists i :: 0 <= i < |walk| && ItemKey(walk[i]) == Some(k)
  {
    if walk != [] {
      var init := walk[..|walk| - 1];
      var last := walk[|walk| - 1];
      BundleRecordsSnoc(walk, compression);
      var initRecs := BundleRecords(init, compression).value;
      BundledKeys(init, compression, initRecs, k);
      ArchiveAfterItem(initRecs, last, compression);
      if exists i :: 0 <= i < |walk| && ItemKey(walk[i]) == Some(k) {
        var i :| 0 <= i < |walk| && ItemKey(walk[i]) == Some(k);
        if i < |init| {
          assert init[i] == walk[i];
        }
      }
      if exists i :: 0 <= i < |init| && ItemKey(init[i]) == Some(k) {
        var i :| 0 <= i < |init| && ItemKey(init[i]) == Some(k);
        assert walk[i] == init[i];
      }
    }
  }

  /** Every prefix of a well-formed walk is well formed. */
  lemma WellFormedPrefix(walk: seq<WalkItem>, n: nat)
    requires n <= |walk| && WellFormedWalk(walk)
    ensures WellFormedWalk(walk[..n])
  {
    var init := walk[..n];
    forall a, b | 0 <= a < b < |init| && init[a].Visit? && init[b].Visit?
      ensures init[a].name != init[b].name
    {
      assert init[a] == walk[a] && init[b] == walk[b];
    }
  }

  /** Every walk item that is stored reads back as what was walked: a
      regular file with exactly its bytes, a directory as an empty marker
      under its name followed by `/`. */
  lemma {:induction false} BundledItem(walk: seq<WalkItem>, compression: CompressionMethod,
                                       recs: seq<ZipRecord>, i: nat)
    requires BundleRecords(walk, compression) == Return(recs)
    requires WellFormedWalk(walk)
    requires i < |walk| && ItemKey(walk[i]).Some?
    ensures ItemKey(walk[i]).value in ArchiveOf(recs)
    ensures walk[i].kind.RegularFile? ==>
      walk[i].kind.contents.Some? &&
      ArchiveOf(recs)[walk[i].name] == Readable(walk[i].kind.contents.value, None)
    ensures walk[i].kind.NotAFile? ==>
      ArchiveOf(recs)[walk[i].name + "/"] == Readable([], None)
  {
    var init := walk[..|walk| - 1];
    var last := walk[|walk| - 1];
    BundleRecordsSnoc(walk, compression);
    var initRecs := BundleRecords(init, compression).value;
    ArchiveAfterItem(initRecs, last, compression);
    if i < |walk| - 1 {
      assert init[i] == walk[i];
      WellFormedPrefix(walk, |walk| - 1);
      BundledItem(init, compression, initRecs, i);
      if ItemKey(last).Some? {
        ItemKeysDistinct(walk[i], last);
      }
    }
  }

  /** What the bundling entry points see of the machine they run on. */
  datatype BuildHost = BuildHost(
    env: map<string, string>,
    readConfig: string -> Toml.ConfigFile,
    walk: string -> seq<WalkItem>,
    canCreateDir: string -> bool,
    canCreateFile: string -> bool)

  /** The message of `std::env::var(..).unwrap()` for a missing variable. */
  const EnvPanic: string := "called `Result::unwrap()` on an `Err` value: NotPresent"

  /** How a bundling entry point ends when it does not panic. */
  datatype BundleRun = Skipped | Bundled(path: string, contents: seq<Byte>)
}
