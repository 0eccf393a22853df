/** The XOR byte transform of src/xor.rs: a wrapper around a readable,
    writable and seekable byte stream that XORs every byte passing through it
    with the fixed key 0x55. The inner stream is modelled as an in-memory file
    (its contents and its cursor), which is what the wrapper sees of a
    `std::fs::File`. */
module XorIo {
  import opened Common

  /** `XOR_FACTOR`, written `0b01010101` in the source. */
  const XorFactor: Byte := 0x55

  /** One byte through the wrapper: it always changes, and the byte stored
      gives the original back when it is transformed again. */
  function XorByte(b: Byte): (r: Byte)
    ensures r != b
    ensures r ^ XorFactor == b
  {
    b ^ XorFactor
  }

  /** The key is its own inverse, so one operation serves both directions. */
  lemma XorByteInvolutive(b: Byte)
    ensures XorByte(XorByte(b)) == b
    ensures XorFactor == 0x55
  {
  }

  /** Every byte of `s` XORed with the key: what `write` hands to the inner
      writer (`buf.iter().map(|x| x ^ XOR_FACTOR)`). */
  function XorAll(s: seq<Byte>): (r: seq<Byte>)
    ensures |r| == |s|
  {
    seq(|s|, i requires 0 <= i < |s| => XorByte(s[i]))
  }

  /** Transforming twice gives the original bytes back. */
  lemma XorAllInvolutive(s: seq<Byte>)
    ensures XorAll(XorAll(s)) == s
  {
    forall i | 0 <= i < |s|
      ensures XorAll(XorAll(s))[i] == s[i]
    {
      XorByteInvolutive(s[i]);
    }
  }

  /** The transform is position independent: it commutes with splitting the
      stream into consecutive pieces ... */
  lemma XorAllAppend(a: seq<Byte>, b: seq<Byte>)
    ensures XorAll(a + b) == XorAll(a) + XorAll(b)
  {
    assert forall i | 0 <= i < |a| + |b| :: XorAll(a + b)[i] == (XorAll(a) + XorAll(b))[i];
  }

  /** ... and with taking any window of it. */
  lemma XorAllSlice(s: seq<Byte>, lo: nat, hi: nat)
    requires lo <= hi <= |s|
    ensures XorAll(s)[lo..hi] == XorAll(s[lo..hi])
  {
    assert forall i | 0 <= i < hi - lo :: XorAll(s)[lo..hi][i] == XorAll(s[lo..hi])[i];
  }

  /** `std::io::SeekFrom`. */
  datatype SeekFrom = Start(offset: nat) | End(delta: int) | Current(delta: int)

  /** The position a seek asks for; a negative one is refused by the stream. */
  function SeekTarget(from: SeekFrom, len: nat, pos: nat): int
  {
    match from
    case Start(offset) => offset
    case End(delta) => len + delta
    case Current(delta) => pos + delta
  }

  /** How many bytes a read into a buffer of `len` bytes takes from `data` at
      cursor `pos`: as many as fit, and none at or past the end. */
  function ReadCount(len: nat, data: seq<Byte>, pos: nat): (n: nat)
    ensures n <= len
    ensures n == 0 || pos + n <= |data|
    ensures n < len ==> pos + n >= |data|
  {
    if pos >= |data| then 0 else Min(len, |data| - pos)
  }

  /** A buffer after the inner stream has read into it: the first `count`
      bytes come from the stream, the rest are left as they were. */
  function Filled(buf: seq<Byte>, data: seq<Byte>, pos: nat): (r: seq<Byte>)
    ensures |r| == |buf|
    ensures forall k | 0 <= k < ReadCount(|buf|, data, pos) :: r[k] == data[pos + k]
    ensures forall k | ReadCount(|buf|, data, pos) <= k < |buf| :: r[k] == buf[k]
  {
    var n := ReadCount(|buf|, data, pos);
    if n == 0 then buf else data[pos..pos + n] + buf[n..]
  }

  function Zeros(n: nat): (r: seq<Byte>)
    ensures |r| == n && forall k | 0 <= k < n :: r[k] == 0
  {
    seq(n, _ => 0)
  }

  /** The contents of a file after writing `bytes` at cursor `pos`: the bytes
      replace what was there, the file grows as needed, and a gap between the
      old end and `pos` reads as zeros. */
  function Overwrite(data: seq<Byte>, pos: nat, bytes: seq<Byte>): (r: seq<Byte>)
    ensures |r| == if pos + |bytes| > |data| then pos + |bytes| else |data|
    ensures forall k | 0 <= k < |r| ::
      r[k] == if pos <= k < pos + |bytes| then bytes[k - pos]
              else if k < |data| then data[k] else 0
  {
    var head := if pos <= |data| then data[..pos] else data + Zeros(pos - |data|);
    var tail := if pos + |bytes| < |data| then data[pos + |bytes|..] else [];
    head + bytes + tail
  }

  /** Two consecutive writes land where one write of both pieces would. */
  lemma OverwriteConsecutive(data: seq<Byte>, pos: nat, a: seq<Byte>, b: seq<Byte>)
    ensures Overwrite(Overwrite(data, pos, a), pos + |a|, b) == Overwrite(data, pos, a + b)
  {
    var lhs := Overwrite(Overwrite(data, pos, a), pos + |a|, b);
    var rhs := Overwrite(data, pos, a + b);
    assert |lhs| == |rhs|;
    forall k | 0 <= k < |lhs|
      ensures lhs[k] == rhs[k]
    {
    }
  }

  /** Writing through `Xor` in two pieces stores what writing the whole
      stream through `Xor` at once would: the wrapper is position independent,
      however the archive writer splits its output. */
  lemma XorWritesCompose(data: seq<Byte>, pos: nat, a: seq<Byte>, b: seq<Byte>)
    ensures Overwrite(Overwrite(data, pos, XorAll(a)), pos + |a|, XorAll(b))
         == Overwrite(data, pos, XorAll(a + b))
  {
    OverwriteConsecutive(data, pos, XorAll(a), XorAll(b));
    XorAllAppend(a, b);
  }

  /** Any write through `Xor` at a cursor inside the file, including one
      that seeks back to patch bytes already written, leaves the stored file
      equal to the transform of the file the plain writes would give. */
  lemma XorOverwrite(data: seq<Byte>, pos: nat, bytes: seq<Byte>)
    requires pos <= |data|
    ensures Overwrite(XorAll(data), pos, XorAll(bytes)) == XorAll(Overwrite(data, pos, bytes))
  {
    var lhs := Overwrite(XorAll(data), pos, XorAll(bytes));
    var rhs := XorAll(Overwrite(data, pos, bytes));
    forall k | 0 <= k < |lhs|
      ensures lhs[k] == rhs[k]
    {
    }
  }

  /** Past the end of the file the two differ: the gap a write leaves holds
      zeros as stored, which read back through `Xor` as the key. */
  lemma XorGapReadsKey(data: seq<Byte>, pos: nat, bytes: seq<Byte>)
    requires |data| < pos
    ensures XorAll(Overwrite(XorAll(data), pos, XorAll(bytes)))[|data|] == XorFactor
    ensures Overwrite(data, pos, bytes)[|data|] == 0
  {
  }

  /** The stream `Xor` wraps: a file's contents and its cursor. `failure`
      stands for an operating-system error; while it is set every operation
      returns it and changes nothing. */
  class ByteStream {
    var data: seq<Byte>
    var pos: nat
    var failure: Option<IoError>

    constructor (contents: seq<Byte>)
      ensures data == contents && pos == 0 && failure == None
    {
      data := contents;
      pos := 0;
      failure := None;
    }

    /** `Read::read`: copies the next bytes into the front of `buf`, moves
        the cursor past them and returns how many there were. */
    method Read(buf: array<Byte>) returns (r: Result<nat, IoError>)
      modifies this, buf
      ensures data == old(data) && failure == old(failure)
      ensures old(failure).Some? ==>
        r == Err(old(failure).value) && pos == old(pos) && buf[..] == old(buf[..])
      ensures old(failure).None? ==>
        && r == Ok(ReadCount(buf.Length, data, old(pos)))
        && pos == old(pos) + r.value
        && buf[..] == Filled(old(buf[..]), data, old(pos))
    {
      if failure.Some? {
        return Err(failure.value);
      }
      var n := ReadCount(buf.Length, data, pos);
      var i := 0;
      while i < n
        modifies buf
        invariant 0 <= i <= n
        invariant forall k | 0 <= k < i :: buf[k] == data[pos + k]
        invariant forall k | i <= k < buf.Length :: buf[k] == old(buf[k])
      {
        buf[i] := data[pos + i];
        i := i + 1;
      }
      pos := pos + n;
      r := Ok(n);
    }

    /** `Write::write`: stores all of `bytes` at the cursor and moves the
        cursor past them. */
    method Write(bytes: seq<Byte>) returns (r: Result<nat, IoError>)
      modifies this
      ensures failure == old(failure)
      ensures old(failure).Some? ==>
        r == Err(old(failure).value) && data == old(data) && pos == old(pos)
      ensures old(failure).None? ==>
        && r == Ok(|bytes|)
        && data == Overwrite(old(data), old(pos), bytes)
        && pos == old(pos) + |bytes|
    {
      if failure.Some? {
        return Err(failure.value);
      }
      data := Overwrite(data, pos, bytes);
      pos := pos + |bytes|;
      r := Ok(|bytes|);
    }

    /** `Write::flush`: an in-memory file has nothing buffered. */
    method Flush() returns (r: Result<(), IoError>)
      ensures r.Err? <==> failure.Some?
      ensures r.Err? ==> r.error == failure.value
    {
      if failure.Some? {
        return Err(failure.value);
      }
      r := Ok(());
    }

    /** `Seek::seek`: moves the cursor and returns the new position; a
        position before the start is refused with `InvalidInput`. */
    method Seek(from: SeekFrom) returns (r: Result<nat, IoError>)
      modifies this
      ensures data == old(data) && failure == old(failure)
      ensures old(failure).Some? ==> r == Err(old(failure).value) && pos == old(pos)
      ensures old(failure).None? && SeekTarget(from, |data|, old(pos)) < 0 ==>
        r == Err(InvalidInput) && pos == old(pos)
      ensures old(failure).None? && SeekTarget(from, |data|, old(pos)) >= 0 ==>
        r == Ok(SeekTarget(from, |data|, old(pos))) && pos == r.value
    {
      if failure.Some? {
        return Err(failure.value);
      }
      var target := SeekTarget(from, |data|, pos);
      if target < 0 {
        return Err(InvalidInput);
      }
      pos := target;
      r := Ok(target);
    }
  }

  /** `Xor<T>`: every byte read from or written to `inner` is XORed with the
      key; flushing and seeking go straight to `inner`, so the wrapper's
      position is always the inner stream's position. */
  class XorStream {
    const inner: ByteStream

    constructor (inner: ByteStream)
      ensures this.inner == inner
    {
      this.inner := inner;
    }

    /** `read`: the inner read's count or error is returned unchanged; on
        success the WHOLE buffer is XORed, including the bytes past the
        count, which the inner read did not touch. */
    method Read(buf: array<Byte>) returns (r: Result<nat, IoError>)
      modifies inner, buf
      ensures inner.data == old(inner.data) && inner.failure == old(inner.failure)
      ensures old(inner.failure).Some? ==>
        r == Err(old(inner.failure).value) && inner.pos == old(inner.pos) && buf[..] == old(buf[..])
      ensures old(inner.failure).None? ==>
        && r == Ok(ReadCount(buf.Length, inner.data, old(inner.pos)))
        && inner.pos == old(inner.pos) + r.value
        && buf[..] == XorAll(Filled(old(buf[..]), inner.data, old(inner.pos)))
    {
      r := inner.Read(buf);
      if r.Err? {
        return;
      }
      ghost var filled := buf[..];
      for i := 0 to buf.Length
        modifies buf
        invariant forall k | 0 <= k < i :: buf[k] == XorByte(filled[k])
        invariant forall k | i <= k < buf.Length :: buf[k] == filled[k]
      {
        buf[i] := XorByte(buf[i]);
      }
      assert buf[..] == XorAll(filled);
    }

    /** `write`: the inner writer receives the XORed copy of `bytes`, of the
        same length, and its result is returned unchanged. */
    method Write(bytes: seq<Byte>) returns (r: Result<nat, IoError>)
      modifies inner
      ensures inner.failure == old(inner.failure)
      ensures old(inner.failure).Some? ==>
        r == Err(old(inner.failure).value) && inner.data == old(inner.data) && inner.pos == old(inner.pos)
      ensures old(inner.failure).None? ==>
        && r == Ok(|bytes|)
        && inner.data == Overwrite(old(inner.data), old(inner.pos), XorAll(bytes))
        && inner.pos == old(inner.pos) + |bytes|
    {
      r := inner.Write(XorAll(bytes));
    }

    /** `flush`: passed through. */
    method Flush() returns (r: Result<(), IoError>)
      ensures r.Err? <==> inner.failure.Some?
      ensures r.Err? ==> r.error == inner.failure.value
    {
      r := inner.Flush();
    }

    /** `seek`: passed through, so it moves the inner cursor exactly as a
        seek on the inner stream would. */
    method Seek(from: SeekFrom) returns (r: Result<nat, IoError>)
      modifies inner
      ensures inner.data == old(inner.data) && inner.failure == old(inner.failure)
      ensures old(inner.failure).Some? ==> r == Err(old(inner.failure).value) && inner.pos == old(inner.pos)
      ensures old(inner.failure).None? && SeekTarget(from, |inner.data|, old(inner.pos)) < 0 ==>
        r == Err(InvalidInput) && inner.pos == old(inner.pos)
      ensures old(inner.failure).None? && SeekTarget(from, |inner.data|, old(inner.pos)) >= 0 ==>
        r == Ok(SeekTarget(from, |inner.data|, old(inner.pos))) && inner.pos == r.value
    {
      r := inner.Seek(from);
    }
  }

  /** What a successful `Xor::read` leaves in the buffer: within the count,
      the stream's bytes XORed with the key; past the count, the caller's
      previous bytes XORed with the key. */
  lemma XorReadContents(buf: seq<Byte>, data: seq<Byte>, pos: nat, k: nat)
    requires k < |buf|
    ensures k < ReadCount(|buf|, data, pos) ==>
      XorAll(Filled(buf, data, pos))[k] == data[pos + k] ^ 0x55
    ensures k >= ReadCount(|buf|, data, pos) ==>
      XorAll(Filled(buf, data, pos))[k] == buf[k] ^ 0x55
  {
  }

  /** The bytes within the count of a read through `Xor` are the XOR of a
      window of the stream. */
  lemma XorReadWindow(buf: seq<Byte>, data: seq<Byte>, pos: nat)
    ensures pos + ReadCount(|buf|, data, pos) <= |data| || ReadCount(|buf|, data, pos) == 0
    ensures var n := ReadCount(|buf|, data, pos);
      XorAll(Filled(buf, data, pos))[..n] == if n == 0 then [] else XorAll(data[pos..pos + n])
  {
    var n := ReadCount(|buf|, data, pos);
    var f := Filled(buf, data, pos);
    if n > 0 {
      assert f[..n] == data[pos..pos + n];
      XorAllSlice(f, 0, n);
    }
  }

  /** Opens a stored file through `Xor`, seeks to `offset` and reads up to
      `len` bytes: the reader sees the XOR of the stored bytes at that offset,
      whatever the offset, which is why an archive reader may seek freely
      inside an obfuscated bundle. */
  method SeekThenRead(stored: seq<Byte>, offset: nat, len: nat) returns (out: seq<Byte>)
    ensures var lo := Min(offset, |stored|);
            var hi := Min(offset + len, |stored|);
            out == XorAll(stored)[lo..hi]
  {
    var file := new ByteStream(stored);
    var reader := new XorStream(file);
    var s := reader.Seek(Start(offset));
    var buf := new Byte[len];
    ghost var before := buf[..];
    var r := reader.Read(buf);
    out := buf[..r.value];
    XorReadWindow(before, stored, offset);
    var n := r.value;
    if n > 0 {
      XorAllSlice(stored, offset, offset + n);
    }
  }

  /** Writes `payload` into a new file through `Xor`, then opens the stored
      bytes through `Xor` again, seeks to `offset` and reads up to `len`
      bytes: the original bytes come back, from any offset. */
  method WriteThenRead(payload: seq<Byte>, offset: nat, len: nat) returns (out: seq<Byte>)
    ensures var lo := Min(offset, |payload|);
            var hi := Min(offset + len, |payload|);
            out == payload[lo..hi]
  {
    var file := new ByteStream([]);
    var writer := new XorStream(file);
    var w := writer.Write(payload);
    var stored := file.data;
    assert stored == XorAll(payload);
    out := SeekThenRead(stored, offset, len);
    XorAllInvolutive(payload);
  }
}
