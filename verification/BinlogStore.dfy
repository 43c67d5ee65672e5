/** The binlogger itself: appending, walking, and the search for the next record in chunks. */
module BinlogStore {
  import opened Collections
  import opened LittleEndian
  import opened BinlogFile

  const BATCH_SIZE := 1024
  const HEADER := 3
  const TAIL := BATCH_SIZE - HEADER

  // ---------------------------------------------------------------- seeking

  /** Read up to `len` bytes of the file into a part of the buffer. */
  method ReadFull(d: Bytes, at: nat, buff: array<byte>, start: nat, len: nat) returns (n: nat)
    requires start + len <= buff.Length
    modifies buff
    ensures n == if at + len <= |d| then len else if at <= |d| then |d| - at else 0
    ensures forall k :: start <= k < start + n ==> buff[k] == d[at + (k - start)]
    ensures forall k :: 0 <= k < start ==> buff[k] == old(buff[k])
  {
    n := 0;
    while n < len && at + n < |d|
      invariant n <= len && (n == 0 || at + n <= |d|)
      invariant forall k :: start <= k < start + n ==> buff[k] == d[at + (k - start)]
      invariant forall k :: 0 <= k < start ==> buff[k] == old(buff[k])
    {
      buff[start + n] := d[at + n];
      n := n + 1;
    }
  }

  /** Look for the magic in the first bytes of the buffer, which mirror the file at `cur`. */
  method ScanBuffer(d: Bytes, cur: nat, buff: array<byte>, n: nat) returns (r: Option<nat>)
    requires n + HEADER <= buff.Length && cur + HEADER + n <= |d|
    requires forall k :: 0 <= k < HEADER + n ==> buff[k] == d[cur + k]
    ensures r.Some? ==> r == Search(d, cur)
    ensures r == None ==> Search(d, cur) == Search(d, cur + n)
  {
    for i := 0 to n
      invariant Search(d, cur) == Search(d, cur + i)
    {
      assert buff[i..i + 4] == d[cur + i..cur + i + 4];
      if Value(buff[i..i + 4]) == MAGIC {
        return Some(cur + i);
      }
    }
    return None;
  }

  /** The file is read in chunks that overlap by one byte less than the magic; the result is that
      of a plain search for the first magic at or after the offset. */
  method SeekBinlog(d: Bytes, offset: nat) returns (r: Option<nat>)
    ensures r == Search(d, offset)
  {
    var buff := new byte[BATCH_SIZE];
    var h := ReadFull(d, offset, buff, 0, HEADER);
    if h < HEADER {
      return None;
    }
    var cur := offset;
    while true
      invariant cur + HEADER <= |d| && Search(d, cur) == Search(d, offset)
      invariant forall k :: 0 <= k < HEADER ==> buff[k] == d[cur + k]
      decreases |d| - cur
    {
      var n := ReadFull(d, cur + HEADER, buff, HEADER, TAIL);
      r := ScanBuffer(d, cur, buff, n);
      if r != None || n < TAIL {
        return;
      }
      cur := cur + TAIL;
      buff[0], buff[1], buff[2] := buff[BATCH_SIZE - 3], buff[BATCH_SIZE - 2], buff[BATCH_SIZE - 1];
    }
  }

  // ---------------------------------------------------------------- writing and walking

  /** Appending a payload appends its record to the last file. */
  lemma ExtendedBytes(enc: Encoder, book: Book, payload: Bytes)
    requires book != [] && forall p :: |enc(p)| == |p| + FRAME
    ensures var files, last := DirBytes(enc, book, []), |book| - 1;
            DirBytes(enc, Extended(book, payload), []) == files[last := files[last] + enc(payload)]
    ensures Size(Extended(book, payload)[|book| - 1]) == Size(book[|book| - 1]) + |enc(payload)|
  {
    var last := book[|book| - 1];
    BytesAppend(enc, last, [payload]);
    assert [payload][1..] == [] && FileBytes(enc, [payload]) == enc(payload) + [] == enc(payload);
    assert (last + [payload])[..|last|] == last;
    var files, next := DirBytes(enc, book, []), DirBytes(enc, Extended(book, payload), []);
    assert files[|book| - 1] == FileBytes(enc, last) && next[|book| - 1] == FileBytes(enc, last) + enc(payload);
  }

  lemma FileNext(dec: Decoder, files: seq<Bytes>, suffix: nat, offset: nat, before: seq<Entity>)
    requires Bounded(dec) && suffix < |files|
    ensures var w, walk := WalkFile(dec, files[suffix], offset), WalkFrom(dec, files, suffix, offset);
            var rest := WalkFrom(dec, files, suffix + 1, 0);
            if Ending(w.last, suffix == |files| - 1) != EOF
            then before + walk.entities == before + Tagged(w.found, suffix) && !walk.ok
            else before + walk.entities == before + Tagged(w.found, suffix) + rest.entities && walk.ok == rest.ok
  {
    var w, rest := WalkFile(dec, files[suffix], offset), WalkFrom(dec, files, suffix + 1, 0);
    Joined(before, Tagged(w.found, suffix), rest.entities);
  }

  lemma FoundNext(d: Bytes, dec: Decoder, found: seq<Found>, offset: nat, suffix: nat)
    requires Bounded(dec) && dec(d, offset).Record?
    ensures var payload := dec(d, offset).payload;
            var end := offset + |payload| + FRAME;
            && end <= |d|
            && Tagged(found + [Found(payload, end)], suffix) == Tagged(found, suffix) + [Entity(payload, Pos(suffix, end))]
            && found + WalkFile(dec, d, offset).found == found + [Found(payload, end)] + WalkFile(dec, d, end).found
            && WalkFile(dec, d, offset).last == WalkFile(dec, d, end).last
  {
    var payload := dec(d, offset).payload;
    var end := offset + |payload| + FRAME;
    TaggedAppend(found, [Found(payload, end)], suffix);
    assert WalkFile(dec, d, offset).found == [Found(payload, end)] + WalkFile(dec, d, end).found;
  }

  class Binlogger {
    const enc: Encoder
    const dec: Decoder
    const maxFileSize: int
    var files: seq<Bytes>
    var lastSuffix: nat
    var lastOffset: nat
    ghost var book: Book

    ghost predicate Valid() reads this {
      && Codec(enc, dec)
      && book != [] && files == DirBytes(enc, book, [])
      && lastSuffix == |files| - 1 && lastOffset == Size(book[|book| - 1])
    }

    constructor (crc: Bytes -> u32, maxFileSize: int)
      ensures Valid() && book == [[]] && this.maxFileSize == maxFileSize
      ensures enc == EncoderOf(crc) && dec == DecoderOf(crc)
    {
      CodecOf(crc);
      enc, dec, this.maxFileSize := EncoderOf(crc), DecoderOf(crc), maxFileSize;
      files, lastSuffix, lastOffset, book := [[]], 0, 0, [[]];
    }

    method Rotate()
      requires Valid()
      modifies this
      ensures Valid() && book == old(book) + [[]]
    {
      files := files + [[]];
      lastSuffix := lastSuffix + 1;
      lastOffset := 0;
      book := book + [[]];
    }

    method Append(payload: Bytes)
      requires Valid()
      modifies this
      ensures Valid() && book == Extended(old(book), payload)
    {
      ExtendedBytes(enc, book, payload);
      var data := enc(payload);
      lastOffset := lastOffset + |data|;
      files := files[lastSuffix := files[lastSuffix] + data];
      book := Extended(book, payload);
    }

    /** An empty payload is ignored; otherwise the position behind the payload is returned. */
    method WriteTail(payload: Bytes) returns (pos: Pos)
      requires Valid()
      modifies this
      ensures Valid() && book == Written(old(book), payload, maxFileSize)
      ensures pos == if payload == [] then Pos(0, 0) else Tail(Extended(old(book), payload))
    {
      if |payload| == 0 {
        return Pos(0, 0);
      }
      Append(payload);
      pos := Pos(lastSuffix, lastOffset);
      if lastOffset < maxFileSize {
        return;
      }
      Rotate();
    }

    /** Read one file from an offset. */
    method WalkOne(d: Bytes, suffix: nat, start: nat) returns (entities: seq<Entity>, last: Read)
      requires Bounded(dec)
      ensures var w := WalkFile(dec, d, start); entities == Tagged(w.found, suffix) && last == w.last
    {
      ghost var found := [];
      entities := [];
      var offset := start;
      while true
        invariant entities == Tagged(found, suffix)
        invariant WalkFile(dec, d, start).found == found + WalkFile(dec, d, offset).found
        invariant WalkFile(dec, d, start).last == WalkFile(dec, d, offset).last
        decreases |d| - offset
      {
        var r := dec(d, offset);
        match r {
          case Record(payload) =>
            FoundNext(d, dec, found, offset, suffix);
            offset := offset + |payload| + FRAME;
            entities := entities + [Entity(payload, Pos(suffix, offset))];
            found := found + [Found(payload, offset)];
          case BadMagic =>
            var next := SeekBinlog(d, offset + 1);
            if next == None {
              assert found + [] == found;
              return entities, EOF;
            }
            offset := next.value;
          case _ =>
            assert found + [] == found;
            return entities, r;
        }
      }
    }

    /** Read the files from a position on. */
    method Walk(from: Pos) returns (entities: seq<Entity>, ok: bool)
      requires Bounded(dec)
      ensures Walked(entities, ok) == BinlogFile.Walk(dec, files, from)
    {
      entities := [];
      if from.suffix >= |files| {
        return entities, false;
      }
      var suffix, offset := from.suffix, from.offset;
      while suffix < |files|
        invariant suffix <= |files|
        invariant WalkFrom(dec, files, from.suffix, from.offset).entities == entities + WalkFrom(dec, files, suffix, offset).entities
        invariant WalkFrom(dec, files, from.suffix, from.offset).ok == WalkFrom(dec, files, suffix, offset).ok
        decreases |files| - suffix
      {
        FileNext(dec, files, suffix, offset, entities);
        var es, last := WalkOne(files[suffix], suffix, offset);
        entities := entities + es;
        if Ending(last, suffix == |files| - 1) != EOF {
          return entities, false;
        }
        suffix, offset := suffix + 1, 0;
      }
      assert entities + [] == entities;
      return entities, true;
    }
  }
}
