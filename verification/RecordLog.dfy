/** The record format of value-log files and the scan that survives corruption.

    A record is magic, length, checksum (16 bytes, little endian) and the payload.  The checksum
    is an arbitrary function.  Reading is defined on the bytes of a file, cut at `size`. */
module RecordLog {
  import opened Collections
  import opened LittleEndian

  const RECORD_MAGIC: nat := 0x823a56e8
  const FILE_END_MAGIC: nat := 0x123ab922
  const HEADER_LENGTH := 16
  const FOOTER_LENGTH := 12
  const MAX_INT64 := 0x8000_0000_0000_0000

  // ---------------------------------------------------------------- records

  function Encode(crc: seq<byte> -> u32, payload: seq<byte>): (d: seq<byte>)
    requires |payload| < MAX_INT64
    ensures |d| == HEADER_LENGTH + |payload|
  {
    Digits(RECORD_MAGIC, 4) + Digits(|payload|, 8) + Digits(crc(payload), 4) + payload
  }

  /** What reading a record at `off` yields within the first `size` bytes: the payload, or
      nothing for a short header, a wrong magic, a short payload or a wrong checksum.  A length
      field of 2^63 or more is a negative count for the copy that reads the payload, which
      then reads nothing. */
  function RecordAt(crc: seq<byte> -> u32, d: seq<byte>, size: nat, off: nat): Option<seq<byte>>
    requires size <= |d|
  {
    if off + HEADER_LENGTH > size || U32(d, off) != RECORD_MAGIC then None
    else
      var length := U64(d, off + 4);
      if MAX_INT64 <= length then
        if crc([]) == U32(d, off + 12) then Some([]) else None
      else if off + HEADER_LENGTH + length > size then None
      else
        var payload := d[off + HEADER_LENGTH..off + HEADER_LENGTH + length];
        if crc(payload) == U32(d, off + 12) then Some(payload) else None
  }

  /** The header fields of an encoded record. */
  lemma EncodedFields(crc: seq<byte> -> u32, payload: seq<byte>)
    requires |payload| < MAX_INT64
    ensures var e := Encode(crc, payload);
      U32(e, 0) == RECORD_MAGIC && U64(e, 4) == |payload| && U32(e, 12) == crc(payload) && e[16..] == payload
  {
    var e := Encode(crc, payload);
    Bounds();
    DigitsValue(RECORD_MAGIC, 4);
    DigitsValue(|payload|, 8);
    DigitsValue(crc(payload), 4);
    assert e[0..4] == Digits(RECORD_MAGIC, 4);
    assert e[4..12] == Digits(|payload|, 8);
    assert e[12..16] == Digits(crc(payload), 4);
  }

  /** Round trip: a record encoded anywhere in a file is read back from its offset. */
  lemma ReadBack(crc: seq<byte> -> u32, payload: seq<byte>, d: seq<byte>, size: nat, off: nat)
    requires |payload| < MAX_INT64 && off + HEADER_LENGTH + |payload| <= size <= |d|
    requires d[off..off + HEADER_LENGTH + |payload|] == Encode(crc, payload)
    ensures RecordAt(crc, d, size, off) == Some(payload)
  {
    var e := Encode(crc, payload);
    EncodedFields(crc, payload);
    SliceOfSlice(d, e, off, 0, 4);
    SliceOfSlice(d, e, off, 4, 12);
    SliceOfSlice(d, e, off, 12, 16);
    SliceOfSlice(d, e, off, 16, |e|);
    assert e[16..|e|] == e[16..];
  }

  /** A record is where the bytes are a header and as many bytes as it says. */
  lemma HeaderAt(crc: seq<byte> -> u32, payload: seq<byte>, d: seq<byte>, off: nat)
    requires |payload| < MAX_INT64 && off + HEADER_LENGTH + |payload| <= |d|
    requires U32(d, off) == RECORD_MAGIC && U64(d, off + 4) == |payload| && U32(d, off + 12) == crc(payload)
    requires d[off + HEADER_LENGTH..off + HEADER_LENGTH + |payload|] == payload
    ensures d[off..off + HEADER_LENGTH + |payload|] == Encode(crc, payload)
  {
    var a, b, c := d[off..off + 4], d[off + 4..off + 12], d[off + 12..off + 16];
    ValueDigits(a);
    ValueDigits(b);
    ValueDigits(c);
    assert d[off..off + HEADER_LENGTH + |payload|] == a + b + c + payload;
  }

  /** A negative length: the magic, a length field of 2^63 or more, and the checksum of nothing. */
  predicate NegativeAt(crc: seq<byte> -> u32, d: seq<byte>, size: nat, off: nat)
    requires size <= |d|
  {
    && off + HEADER_LENGTH <= size && d[off..off + 4] == Digits(RECORD_MAGIC, 4)
    && MAX_INT64 <= U64(d, off + 4) && U32(d, off + 12) == crc([])
  }

  lemma MagicExact(d: seq<byte>, off: nat)
    requires off + 4 <= |d|
    ensures U32(d, off) == RECORD_MAGIC <==> d[off..off + 4] == Digits(RECORD_MAGIC, 4)
  {
    Bounds();
    ValueDigits(d[off..off + 4]);
    DigitsValue(RECORD_MAGIC, 4);
  }

  /** Exactly what is read: a payload is read at an offset if and only if the bytes there are its encoding,
      or it is empty and there is a negative length. */
  lemma RecordAtExact(crc: seq<byte> -> u32, d: seq<byte>, size: nat, off: nat, payload: seq<byte>)
    requires size <= |d|
    ensures RecordAt(crc, d, size, off) == Some(payload) <==>
      || (&& |payload| < MAX_INT64 && off + HEADER_LENGTH + |payload| <= size
          && d[off..off + HEADER_LENGTH + |payload|] == Encode(crc, payload))
      || (payload == [] && NegativeAt(crc, d, size, off))
  {
    if off + HEADER_LENGTH <= size {
      MagicExact(d, off);
    }
    if |payload| < MAX_INT64 && off + HEADER_LENGTH + |payload| <= size &&
       d[off..off + HEADER_LENGTH + |payload|] == Encode(crc, payload) {
      ReadBack(crc, payload, d, size, off);
    }
    if RecordAt(crc, d, size, off) == Some(payload) && U64(d, off + 4) < MAX_INT64 {
      HeaderAt(crc, payload, d, off);
    }
  }

  // ---------------------------------------------------------------- the scan

  /** A delivered record. */
  datatype Hit = Hit(off: nat, payload: seq<byte>) {
    function End(): nat {
      off + HEADER_LENGTH + |payload|
    }
  }

  /** What can be read at each offset. */
  type Reader = nat -> Option<seq<byte>>

  function FileReader(crc: seq<byte> -> u32, d: seq<byte>, size: nat): Reader
    requires size <= |d|
  {
    (off: nat) => RecordAt(crc, d, size, off)
  }

  /** The reference: try every offset in turn, and go past a record once it was read. */
  function Greedy(read: Reader, size: nat, off: nat): seq<Hit>
    decreases size as int - off as int
  {
    if size <= off then []
    else match read(off)
      case Some(payload) => [Hit(off, payload)] + Greedy(read, size, Hit(off, payload).End())
      case None => Greedy(read, size, off + 1)
  }

  predicate MagicAt(d: seq<byte>, size: nat, off: nat)
    requires size <= |d|
  {
    off + 4 <= size && U32(d, off) == RECORD_MAGIC
  }

  /** The bytes of the magic are there. */
  lemma MagicAtExact(d: seq<byte>, size: nat, off: nat)
    requires size <= |d|
    ensures MagicAt(d, size, off) <==> off + 4 <= size && d[off..off + 4] == Digits(RECORD_MAGIC, 4)
  {
    if off + 4 <= size {
      MagicExact(d, off);
    }
  }

  /** `seekToNextRecord` from `off`: the number of bytes skipped before the next magic. */
  method SeekToNextRecord(d: seq<byte>, size: nat, off: nat) returns (bytes: nat, found: bool)
    requires off <= size <= |d|
    ensures found ==> MagicAt(d, size, off + bytes)
    ensures forall o :: off <= o < (if found then off + bytes else size) ==> !MagicAt(d, size, o)
  {
    bytes := 0;
    while off + bytes + 4 <= size
      invariant off + bytes <= size
      invariant forall o :: off <= o < off + bytes ==> !MagicAt(d, size, o)
    {
      if U32(d, off + bytes) == RECORD_MAGIC {
        return bytes, true;
      }
      bytes := bytes + 1;
    }
    found := false;
  }

  lemma {:induction false} GreedySkips(crc: seq<byte> -> u32, d: seq<byte>, size: nat, lo: nat, hi: nat)
    requires lo <= hi <= size <= |d|
    requires forall o :: lo <= o < hi ==> !MagicAt(d, size, o)
    ensures Greedy(FileReader(crc, d, size), size, lo) == Greedy(FileReader(crc, d, size), size, hi)
    decreases hi - lo
  {
    if lo < hi {
      assert !MagicAt(d, size, lo);
      GreedySkips(crc, d, size, lo + 1, hi);
    }
  }

  /** `logFile.scan`: on a record that cannot be read it moves one byte on and seeks the next
      magic.  Whatever the bytes are, it ends and delivers what the reference delivers. */
  method ScanFile(crc: seq<byte> -> u32, d: seq<byte>, size: nat, start: nat) returns (hits: seq<Hit>)
    requires size <= |d|
    ensures hits == Greedy(FileReader(crc, d, size), size, start)
  {
    hits := [];
    var off := start;
    while off < size
      invariant hits + Greedy(FileReader(crc, d, size), size, off) == Greedy(FileReader(crc, d, size), size, start)
      decreases size as int - off as int
    {
      var record := RecordAt(crc, d, size, off);
      if record.None? {
        off := off + 1;
        var bytes, found := SeekToNextRecord(d, size, off);
        if !found {
          GreedySkips(crc, d, size, off, size);
          return;
        }
        GreedySkips(crc, d, size, off, off + bytes);
        off := off + bytes;
      } else {
        var hit := Hit(off, record.value);
        assert hits + ([hit] + Greedy(FileReader(crc, d, size), size, hit.End())) == hits + [hit] + Greedy(FileReader(crc, d, size), size, hit.End());
        hits := hits + [hit];
        off := hit.End();
      }
    }
  }

  /** Records valid at their offsets, in order and disjoint. */
  ghost predicate Disjoint(read: Reader, start: nat, hits: seq<Hit>) {
    && (forall i :: 0 <= i < |hits| ==> start <= hits[i].off && read(hits[i].off) == Some(hits[i].payload))
    && (forall i, j :: 0 <= i < j < |hits| ==> hits[i].End() <= hits[j].off)
  }

  lemma {:induction false} GreedySound(read: Reader, size: nat, start: nat)
    ensures Disjoint(read, start, Greedy(read, size, start))
    decreases size as int - start as int
  {
    if start < size {
      var record := read(start);
      if record.Some? {
        var hit := Hit(start, record.value);
        GreedySound(read, size, hit.End());
        assert Greedy(read, size, start) == [hit] + Greedy(read, size, hit.End());
      } else {
        GreedySound(read, size, start + 1);
        assert Greedy(read, size, start) == Greedy(read, size, start + 1);
      }
    }
  }

  /** Completeness: a readable record at or after the start is delivered, unless a delivered
      record that begins before it overlaps it. */
  lemma {:induction false} GreedyComplete(read: Reader, size: nat, start: nat, off: nat)
    requires start <= off < size && read(off).Some?
    ensures exists h :: h in Greedy(read, size, start) && h.off <= off < h.End()
                        && (h.off == off ==> Some(h.payload) == read(off))
    decreases size - start
  {
    match read(start)
    case Some(payload) =>
      var hit := Hit(start, payload);
      if off < hit.End() {
        assert hit in Greedy(read, size, start);
      } else {
        GreedyComplete(read, size, hit.End(), off);
        var h :| h in Greedy(read, size, hit.End()) && h.off <= off < h.End()
                 && (h.off == off ==> Some(h.payload) == read(off));
        assert h in Greedy(read, size, start);
      }
    case None =>
      GreedyComplete(read, size, start + 1, off);
  }
}
