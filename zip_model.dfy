/** The parts of the `zip` crate the core relies on, reduced to what the core
    observes of them. An archive is written as a list of records (file entries
    with their bytes, and directory markers); the byte format itself is not
    modelled: an `encode` function stands for the writer's serialisation and a
    `parse` function for `ZipArchive::new`, which may fail. */
module ZipModel {
  import opened Common

  /** `zip::CompressionMethod`, restricted to the methods the bundler uses. */
  datatype CompressionMethod = Stored | Deflated | Bzip2

  /** `zip::result::ZipError`. */
  datatype ZipError =
    | Io(error: IoError)
    | InvalidArchive(reason: string)
    | UnsupportedArchive(reason: string)
    | FileNotFound

  /** An entry of an opened archive as a reader finds it: either it opens
      and decompresses to `data`, after which `fault` (a checksum mismatch,
      say) is reported if present, or `by_name` already fails on it. */
  datatype StoredEntry =
    | Readable(data: seq<Byte>, fault: Option<IoError>)
    | Unreadable(error: ZipError)

  /** An opened archive: entry names to entries. */
  type Archive = map<string, StoredEntry>

  /** `ZipArchive::by_name`: the entry of that exact name, `FileNotFound`
      when there is none, or the error the entry cannot be opened with. */
  function ByName(archive: Archive, name: string): (r: Result<StoredEntry, ZipError>)
    ensures r.Ok? <==> name in archive && archive[name].Readable?
    ensures r.Ok? ==> r.value == archive[name]
    ensures name !in archive ==> r == Err(FileNotFound)
  {
    if name !in archive then Err(FileNotFound)
    else match archive[name]
      case Readable(_, _) => Ok(archive[name])
      case Unreadable(e) => Err(e)
  }

  /** A `ZipFile` being read: the decompressed bytes of one entry and a
      cursor into them. */
  class EntryReader {
    const data: seq<Byte>
    const fault: Option<IoError>
    var pos: nat

    constructor (data: seq<Byte>, fault: Option<IoError>)
      ensures this.data == data && this.fault == fault && pos == 0
    {
      this.data := data;
      this.fault := fault;
      pos := 0;
    }

    /** `Read::read` into a buffer of `max` bytes: the next bytes up to
        `max`; at the end of the data, the entry's fault if it has one and
        otherwise nothing (end of file). */
    method Read(max: nat) returns (r: Result<seq<Byte>, IoError>)
      requires pos <= |data|
      modifies this
      ensures pos <= |data|
      ensures old(pos) < |data| ==>
        && r.Ok?
        && r.value == data[old(pos)..old(pos) + Min(max, |data| - old(pos))]
        && pos == old(pos) + |r.value|
      ensures old(pos) == |data| ==>
        pos == old(pos) && r == (if fault.Some? then Err(fault.value) else Ok([]))
    {
      if pos < |data| {
        var n := Min(max, |data| - pos);
        r := Ok(data[pos..pos + n]);
        pos := pos + n;
      } else if fault.Some? {
        r := Err(fault.value);
      } else {
        r := Ok([]);
      }
    }
  }

  /** What the bundler hands to the archive writer. */
  datatype ZipRecord =
    | FileRecord(name: string, compression: CompressionMethod, data: seq<Byte>)
    | DirRecord(name: string, compression: CompressionMethod)

  function EndsWithSlash(s: string): bool { |s| > 0 && s[|s| - 1] == '/' }

  /** The name a record is stored under: a directory marker gets a trailing
      `/` unless it has one already. */
  function RecordKey(rec: ZipRecord): (k: string)
    ensures rec.DirRecord? ==> EndsWithSlash(k)
    ensures rec.FileRecord? ==> k == rec.name
  {
    match rec
    case FileRecord(name, _, _) => name
    case DirRecord(name, _) => if EndsWithSlash(name) then name else name + "/"
  }

  /** How a record reads back: a file gives its bytes, a directory marker
      nothing. */
  function RecordEntry(rec: ZipRecord): StoredEntry
  {
    match rec
    case FileRecord(_, _, data) => Readable(data, None)
    case DirRecord(_, _) => Readable([], None)
  }

  /** The archive a reader sees after the writer was given `recs`: one entry
      per record key; when two records share a key, the later one is found. */
  function ArchiveOf(recs: seq<ZipRecord>): (a: Archive)
    decreases |recs|
  {
    if recs == [] then map[]
    else ArchiveOf(recs[..|recs| - 1])[RecordKey(recs[|recs| - 1]) := RecordEntry(recs[|recs| - 1])]
  }

  /** The keys of the archive are exactly the keys of the records. */
  lemma {:induction false} ArchiveOfKeys(recs: seq<ZipRecord>, k: string)
    ensures k in ArchiveOf(recs) <==> exists i :: 0 <= i < |recs| && RecordKey(recs[i]) == k
  {
    if recs != [] {
      var init := recs[..|recs| - 1];
      ArchiveOfKeys(init, k);
      if k in ArchiveOf(init) {
        var i :| 0 <= i < |init| && RecordKey(init[i]) == k;
        assert recs[i] == init[i];
      }
      if exists i :: 0 <= i < |recs| && RecordKey(recs[i]) == k {
        var i :| 0 <= i < |recs| && RecordKey(recs[i]) == k;
        if i < |init| {
          assert init[i] == recs[i];
        }
      }
    }
  }

  /** A record that no later record shadows is what the archive holds under
      its key. */
  lemma {:induction false} ArchiveOfLastWins(recs: seq<ZipRecord>, i: nat)
    requires i < |recs|
    requires forall j | i < j < |recs| :: RecordKey(recs[j]) != RecordKey(recs[i])
    ensures RecordKey(recs[i]) in ArchiveOf(recs)
    ensures ArchiveOf(recs)[RecordKey(recs[i])] == RecordEntry(recs[i])
  {
    if i < |recs| - 1 {
      var init := recs[..|recs| - 1];
      assert init[i] == recs[i];
      forall j | i < j < |init|
        ensures RecordKey(init[j]) != RecordKey(init[i])
      {
        assert init[j] == recs[j];
      }
      ArchiveOfLastWins(init, i);
    }
  }

  /** The archive format's contract, which the model takes as a hypothesis
      wherever it is needed: parsing what the writer serialised yields the
      archive of the records it was given, whatever their compression
      method. */
  ghost predicate Faithful(parse: seq<Byte> -> Option<Archive>, encode: seq<ZipRecord> -> seq<Byte>)
  {
    forall recs :: parse(encode(recs)) == Some(ArchiveOf(recs))
  }

  /** `ZipWriter`: collects records until `finish` serialises them. */
  class ZipWriter {
    var records: seq<ZipRecord>

    constructor ()
      ensures records == []
    {
      records := [];
    }

    /** Whether a file entry is open for `write`. */
    predicate Writing()
      reads this
    {
      |records| > 0 && records[|records| - 1].FileRecord?
    }

    /** `start_file_from_path`: opens a new, empty file entry. */
    method StartFile(name: string, compression: CompressionMethod)
      modifies this
      ensures records == old(records) + [FileRecord(name, compression, [])]
      ensures Writing()
    {
      records := records + [FileRecord(name, compression, [])];
    }

    /** `write_all`: appends bytes to the open file entry; with no file
        entry open the crate refuses with "No file has been started". */
    method WriteAll(bytes: seq<Byte>) returns (r: Result<(), IoError>)
      modifies this
      ensures old(Writing()) ==>
        && r == Ok(())
        && var last := old(records[|records| - 1]);
           records == old(records[..|records| - 1]) + [FileRecord(last.name, last.compression, last.data + bytes)]
      ensures !old(Writing()) ==>
        r == Err(Other("No file has been started")) && records == old(records)
      ensures Writing() == old(Writing())
    {
      if !Writing() {
        return Err(Other("No file has been started"));
      }
      var last := records[|records| - 1];
      records := records[..|records| - 1] + [FileRecord(last.name, last.compression, last.data + bytes)];
      r := Ok(());
    }

    /** `add_directory_from_path`: adds a directory marker. */
    method AddDirectory(name: string, compression: CompressionMethod)
      modifies this
      ensures records == old(records) + [DirRecord(name, compression)]
    {
      records := records + [DirRecord(name, compression)];
    }

    /** `finish`: the serialised archive, headers and central directory
        included. */
    method Finish(encode: seq<ZipRecord> -> seq<Byte>) returns (image: seq<Byte>)
      ensures image == encode(records)
    {
      image := encode(records);
    }
  }
}
