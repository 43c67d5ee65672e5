/** The drainer's binlog files: payloads are framed and appended to the last file, which is rotated
    at a threshold; a walk from a position reads them back. */
module BinlogFile {
  import opened Collections
  import opened LittleEndian

  type Bytes = seq<byte>

  const MAGIC: nat := 471532804
  const FRAME := 16
  const MAX_INT64 := 0x8000_0000_0000_0000

  // ---------------------------------------------------------------- one record

  /** Magic, length, payload, checksum field. */
  function FrameBytes(payload: Bytes, sum: u32): (d: Bytes)
    ensures |d| == |payload| + FRAME
  {
    Digits(MAGIC, 4) + Digits(|payload|, 8) + payload + Digits(sum, 4)
  }

  function Encode(crc: Bytes -> u32, payload: Bytes): (d: Bytes)
    ensures |d| == |payload| + FRAME
  {
    FrameBytes(payload, crc(payload))
  }

  /** `Crash` is the allocation of a negative length. */
  datatype Read = EOF | UnexpectedEOF | BadMagic | BadCRC | Crash | Record(payload: Bytes)

  predicate MagicAt(d: Bytes, off: nat) {
    off + 4 <= |d| && U32(d, off) == MAGIC
  }

  function Decode(crc: Bytes -> u32, d: Bytes, off: nat): Read {
    if off >= |d| then EOF
    else if off + 4 > |d| then UnexpectedEOF
    else if !MagicAt(d, off) then BadMagic
    else if off + 12 > |d| then UnexpectedEOF
    else
      var size := U64(d, off + 4);
      if MAX_INT64 <= size then Crash
      else if off + 12 + size + 4 > |d| then UnexpectedEOF
      else
        var payload := d[off + 12..off + 12 + size];
        if crc(payload) == U32(d, off + 12 + size) then Record(payload) else BadCRC
  }

  lemma FrameFields(payload: Bytes, sum: u32)
    requires |payload| < MAX_INT64
    ensures var e := FrameBytes(payload, sum);
      && U32(e, 0) == MAGIC && U64(e, 4) == |payload| && e[12..12 + |payload|] == payload
      && U32(e, 12 + |payload|) == sum
  {
    var e := FrameBytes(payload, sum);
    Bounds();
    DigitsValue(MAGIC, 4);
    DigitsValue(|payload|, 8);
    DigitsValue(sum, 4);
    assert e[0..4] == Digits(MAGIC, 4);
    assert e[4..12] == Digits(|payload|, 8);
    assert e[12 + |payload|..12 + |payload| + 4] == Digits(sum, 4);
  }

  /** A framed record anywhere in a file decodes to its payload if and only if its checksum field
      matches. */
  lemma DecodeFrame(crc: Bytes -> u32, pre: Bytes, payload: Bytes, sum: u32, post: Bytes)
    requires |payload| < MAX_INT64
    ensures Decode(crc, pre + FrameBytes(payload, sum) + post, |pre|)
         == if crc(payload) == sum then Record(payload) else BadCRC
  {
    var e, d, off := FrameBytes(payload, sum), pre + FrameBytes(payload, sum) + post, |pre|;
    FrameFields(payload, sum);
    assert d[off..off + |e|] == e;
    SliceOfSlice(d, e, off, 0, 4);
    SliceOfSlice(d, e, off, 4, 12);
    SliceOfSlice(d, e, off, 12, 12 + |payload|);
    SliceOfSlice(d, e, off, 12 + |payload|, |e|);
  }

  /** Round trip: a record anywhere in a file decodes to its payload. */
  lemma DecodeEncoded(crc: Bytes -> u32, pre: Bytes, payload: Bytes, post: Bytes)
    requires |payload| < MAX_INT64
    ensures Decode(crc, pre + Encode(crc, payload) + post, |pre|) == Record(payload)
  {
    DecodeFrame(crc, pre, payload, crc(payload), post);
  }

  /** A proper prefix of a record. */
  ghost predicate Torn(crc: Bytes -> u32, torn: Bytes) {
    torn == [] || exists q: Bytes :: |q| < MAX_INT64 && |torn| < |q| + FRAME && torn == Encode(crc, q)[..|torn|]
  }

  lemma TornFields(crc: Bytes -> u32, q: Bytes, torn: Bytes)
    requires |q| < MAX_INT64 && |torn| < |q| + FRAME && torn == Encode(crc, q)[..|torn|]
    ensures |torn| >= 4 ==> U32(torn, 0) == MAGIC
    ensures |torn| >= 12 ==> U64(torn, 4) == |q|
  {
    var e := Encode(crc, q);
    FrameFields(q, crc(q));
    assert |torn| >= 4 ==> torn[0..4] == e[0..4];
    assert |torn| >= 12 ==> torn[4..12] == e[4..12];
  }

  lemma DecodeShort(crc: Bytes -> u32, pre: Bytes, torn: Bytes, size: nat)
    requires 0 < |torn| < size + FRAME && size < MAX_INT64
    requires |torn| >= 4 ==> U32(torn, 0) == MAGIC
    requires |torn| >= 12 ==> U64(torn, 4) == size
    ensures Decode(crc, pre + torn, |pre|) == UnexpectedEOF
  {
    var d, off := pre + torn, |pre|;
    assert d[off..off + |torn|] == torn;
    if |torn| >= 4 {
      SliceOfSlice(d, torn, off, 0, 4);
    }
    if |torn| >= 12 {
      SliceOfSlice(d, torn, off, 4, 12);
    }
  }

  /** A torn record at the end of a file reads as the end of the file. */
  lemma DecodeTorn(crc: Bytes -> u32, pre: Bytes, torn: Bytes)
    requires Torn(crc, torn)
    ensures Decode(crc, pre + torn, |pre|) == if torn == [] then EOF else UnexpectedEOF
  {
    if torn != [] {
      var q: Bytes :| |q| < MAX_INT64 && |torn| < |q| + FRAME && torn == Encode(crc, q)[..|torn|];
      TornFields(crc, q, torn);
      DecodeShort(crc, pre, torn, |q|);
    }
  }

  // ---------------------------------------------------------------- one file

  /** The first magic at or after an offset. */
  function Search(d: Bytes, off: nat): (r: Option<nat>)
    ensures r.Some? ==> off <= r.value < |d|
    decreases |d| - off
  {
    if off + 4 > |d| then None
    else if MagicAt(d, off) then Some(off)
    else Search(d, off + 1)
  }

  /** The search finds the first magic, or there is none. */
  lemma {:induction false} SearchFirst(d: Bytes, off: nat)
    ensures match Search(d, off)
            case None => forall o :: off <= o ==> !MagicAt(d, o)
            case Some(first) => MagicAt(d, first) && off <= first && forall o :: off <= o < first ==> !MagicAt(d, o)
    decreases |d| - off
  {
    if off + 4 <= |d| && !MagicAt(d, off) {
      SearchFirst(d, off + 1);
    }
  }

  /** A payload read and the offset of its end. */
  datatype Found = Found(payload: Bytes, end: nat)

  datatype FileWalk = FileWalk(found: seq<Found>, last: Read)

  /** How a record is written, and how it is read at an offset. */
  type Encoder = Bytes -> Bytes
  type Decoder = (Bytes, nat) -> Read

  function EncoderOf(crc: Bytes -> u32): Encoder {
    payload => Encode(crc, payload)
  }

  function DecoderOf(crc: Bytes -> u32): Decoder {
    (d: Bytes, off: nat) => Decode(crc, d, off)
  }

  /** A record read lies within the file. */
  ghost predicate Bounded(dec: Decoder) {
    forall d, off: nat :: dec(d, off).Record? ==> off + |dec(d, off).payload| + FRAME <= |d|
  }

  /** Read records from an offset; after a wrong magic go on at the next magic. */
  ghost function WalkFile(dec: Decoder, d: Bytes, off: nat): FileWalk
    requires Bounded(dec)
    decreases |d| - off
  {
    match dec(d, off)
    case Record(payload) =>
      var rest := WalkFile(dec, d, off + |payload| + FRAME);
      FileWalk([Found(payload, off + |payload| + FRAME)] + rest.found, rest.last)
    case BadMagic =>
      (match Search(d, off + 1)
       case None => FileWalk([], EOF)
       case Some(next) => WalkFile(dec, d, next))
    case other => FileWalk([], other)
  }

  /** The payloads of a file and the offsets of their ends. */
  function FoundIn(payloads: seq<Bytes>, off: nat): seq<Found> {
    if payloads == [] then []
    else
      var end := off + |payloads[0]| + FRAME;
      [Found(payloads[0], end)] + FoundIn(payloads[1..], end)
  }

  function FileBytes(enc: Encoder, payloads: seq<Bytes>): Bytes {
    if payloads == [] then [] else enc(payloads[0]) + FileBytes(enc, payloads[1..])
  }

  ghost predicate Small(payloads: seq<Bytes>) {
    forall i :: 0 <= i < |payloads| ==> |payloads[i]| < MAX_INT64
  }

  /** What is written is read back, and a torn record reads as the end. */
  ghost predicate Codec(enc: Encoder, dec: Decoder) {
    && Bounded(dec)
    && (forall p :: |enc(p)| == |p| + FRAME)
    && (forall pre, p, post {:trigger dec(pre + enc(p) + post, |pre|)} ::
          |p| < MAX_INT64 ==> dec(pre + enc(p) + post, |pre|) == Record(p))
  }

  lemma CodecOf(crc: Bytes -> u32)
    ensures Codec(EncoderOf(crc), DecoderOf(crc))
  {
    var enc, dec := EncoderOf(crc), DecoderOf(crc);
    forall pre, p, post | |p| < MAX_INT64 ensures dec(pre + enc(p) + post, |pre|) == Record(p) {
      DecodeEncoded(crc, pre, p, post);
    }
    assert Bounded(dec);
  }

  ghost predicate ReadsAsEnd(dec: Decoder, torn: Bytes) {
    forall pre {:trigger pre + torn} :: dec(pre + torn, |pre|) == if torn == [] then EOF else UnexpectedEOF
  }

  lemma TornReads(crc: Bytes -> u32, torn: Bytes)
    requires Torn(crc, torn)
    ensures ReadsAsEnd(DecoderOf(crc), torn)
  {
    forall pre {:trigger pre + torn}
      ensures DecoderOf(crc)(pre + torn, |pre|) == if torn == [] then EOF else UnexpectedEOF
    {
      DecodeTorn(crc, pre, torn);
    }
  }

  lemma Regroup(pre: Bytes, e: Bytes, rest: Bytes, torn: Bytes)
    ensures pre + (e + rest) + torn == pre + e + (rest + torn)
    ensures pre + (e + rest) + torn == (pre + e) + rest + torn
  {
  }

  /** Walking a file from the end of any of its records finds the later ones. */
  lemma {:induction false} WalkFinds(enc: Encoder, dec: Decoder, pre: Bytes, payloads: seq<Bytes>, torn: Bytes)
    requires Codec(enc, dec) && Small(payloads) && ReadsAsEnd(dec, torn)
    ensures WalkFile(dec, pre + FileBytes(enc, payloads) + torn, |pre|)
         == FileWalk(FoundIn(payloads, |pre|), if torn == [] then EOF else UnexpectedEOF)
    decreases |payloads|
  {
    if payloads == [] {
      assert pre + FileBytes(enc, payloads) + torn == pre + torn;
    } else {
      var e, rest := enc(payloads[0]), FileBytes(enc, payloads[1..]);
      Regroup(pre, e, rest, torn);
      assert dec(pre + e + (rest + torn), |pre|) == Record(payloads[0]);
      WalkFinds(enc, dec, pre + e, payloads[1..], torn);
    }
  }

  // ---------------------------------------------------------------- the directory

  /** The payloads in each file; files are numbered from 0. */
  type Book = seq<seq<Bytes>>

  datatype Pos = Pos(suffix: nat, offset: nat)

  datatype Entity = Entity(payload: Bytes, pos: Pos)

  function Size(payloads: seq<Bytes>): nat {
    if payloads == [] then 0 else Size(payloads[..|payloads| - 1]) + |payloads[|payloads| - 1]| + FRAME
  }

  function Extended(book: Book, payload: Bytes): Book
    requires book != []
  {
    book[|book| - 1 := book[|book| - 1] + [payload]]
  }

  /** The position just behind the last payload. */
  function Tail(book: Book): Pos
    requires book != []
  {
    Pos(|book| - 1, Size(book[|book| - 1]))
  }

  /** An empty payload is ignored; a file that reaches the threshold is followed by a new one. */
  function Written(book: Book, payload: Bytes, max: int): Book
    requires book != []
  {
    if payload == [] then book
    else
      var next := Extended(book, payload);
      if Tail(next).offset < max then next else next + [[]]
  }

  function Tagged(found: seq<Found>, suffix: nat): (es: seq<Entity>)
    ensures |es| == |found|
  {
    seq(|found|, i requires 0 <= i < |found| => Entity(found[i].payload, Pos(suffix, found[i].end)))
  }

  /** The entities in the files from one on. */
  function EntitiesFrom(book: Book, suffix: nat): seq<Entity>
    decreases |book| - suffix
  {
    if suffix >= |book| then [] else Tagged(FoundIn(book[suffix], 0), suffix) + EntitiesFrom(book, suffix + 1)
  }

  lemma {:induction false} FoundAppend(payloads: seq<Bytes>, more: seq<Bytes>, off: nat)
    ensures FoundIn(payloads + more, off) == FoundIn(payloads, off) + FoundIn(more, off + Size(payloads))
    decreases |payloads|
  {
    if payloads == [] {
      assert payloads + more == more;
    } else {
      assert (payloads + more)[1..] == payloads[1..] + more;
      SizeFirst(payloads);
      FoundAppend(payloads[1..], more, off + |payloads[0]| + FRAME);
    }
  }

  lemma {:induction false} SizeFirst(payloads: seq<Bytes>)
    requires payloads != []
    ensures Size(payloads) == |payloads[0]| + FRAME + Size(payloads[1..])
  {
    if |payloads| > 1 {
      var init := payloads[..|payloads| - 1];
      SizeFirst(init);
      assert init[1..] == payloads[1..][..|payloads| - 2];
    }
  }

  lemma TaggedAppend(a: seq<Found>, b: seq<Found>, suffix: nat)
    ensures Tagged(a + b, suffix) == Tagged(a, suffix) + Tagged(b, suffix)
  {
  }

  /** One book continues another: same files, the last one longer, and more files. */
  ghost predicate Continues(a: Book, b: Book) {
    && 0 < |a| <= |b|
    && (forall i :: 0 <= i < |a| - 1 ==> a[i] == b[i])
    && a[|a| - 1] <= b[|a| - 1]
  }

  /** What a walk of the longer book from the end of the shorter one should find. */
  function Later(a: Book, b: Book): seq<Entity>
    requires 0 < |a| <= |b| && |a[|a| - 1]| <= |b[|a| - 1]|
  {
    var s := |a| - 1;
    Tagged(FoundIn(b[s][|a[s]|..], Size(a[s])), s) + EntitiesFrom(b, s + 1)
  }

  lemma FileSplit(x: seq<Bytes>, y: seq<Bytes>, suffix: nat)
    requires x <= y
    ensures Tagged(FoundIn(y, 0), suffix)
         == Tagged(FoundIn(x, 0), suffix) + Tagged(FoundIn(y[|x|..], Size(x)), suffix)
  {
    assert y == x + y[|x|..];
    FoundAppend(x, y[|x|..], 0);
    TaggedAppend(FoundIn(x, 0), FoundIn(y[|x|..], Size(x)), suffix);
  }

  lemma Joined(x: seq<Entity>, y: seq<Entity>, z: seq<Entity>)
    ensures x + y + z == x + (y + z)
  {
  }

  lemma {:induction false} EntitiesSplit(a: Book, b: Book, suffix: nat)
    requires Continues(a, b) && suffix < |a|
    ensures EntitiesFrom(b, suffix) == EntitiesFrom(a, suffix) + Later(a, b)
    decreases |a| - suffix
  {
    var x, y := Tagged(FoundIn(a[suffix], 0), suffix), Tagged(FoundIn(b[suffix], 0), suffix);
    if suffix == |a| - 1 {
      FileSplit(a[suffix], b[suffix], suffix);
      assert EntitiesFrom(a, suffix) == x + [] == x;
      Joined(x, Tagged(FoundIn(b[suffix][|a[suffix]|..], Size(a[suffix])), suffix), EntitiesFrom(b, suffix + 1));
    } else {
      EntitiesSplit(a, b, suffix + 1);
      Joined(x, EntitiesFrom(a, suffix + 1), Later(a, b));
    }
  }

  lemma WrittenContinues(a: Book, b: Book, payload: Bytes, max: int)
    requires Continues(a, b)
    ensures Continues(a, Written(b, payload, max))
  {
  }

  /** Writing adds exactly the payload at the position returned. */
  lemma WrittenEntity(book: Book, payload: Bytes, max: int)
    requires book != [] && payload != []
    ensures Continues(Extended(book, payload), Written(book, payload, max))
    ensures EntitiesFrom(Written(book, payload, max), 0)
         == EntitiesFrom(book, 0) + [Entity(payload, Tail(Extended(book, payload)))]
  {
    var next, s := Extended(book, payload), |book| - 1;
    EntitiesSplit(book, next, 0);
    assert next[s][|book[s]|..] == [payload] && next[s][..|book[s]|] == book[s];
    assert [payload][1..] == [];
    assert FoundIn([payload], Size(book[s])) == [Found(payload, Size(next[s]))];
    assert EntitiesFrom(next, s + 1) == [];
    EntitiesSplit(next, Written(book, payload, max), 0);
    NothingLater(next, Written(book, payload, max));
  }

  /** A file that reached the threshold with its last record. */
  ghost predicate JustFull(payloads: seq<Bytes>, max: int) {
    payloads != [] && Size(payloads) >= max && Size(payloads[..|payloads| - 1]) < max
  }

  /** The last file is below the threshold, and every earlier one reached it with its last record. */
  ghost predicate Packed(book: Book, max: int) {
    && book != [] && Size(book[|book| - 1]) < max
    && forall i :: 0 <= i < |book| - 1 ==> JustFull(book[i], max)
  }

  lemma JustFullOr(last: seq<Bytes>, payload: Bytes, max: int)
    requires Size(last) < max
    ensures Size(last + [payload]) < max || JustFull(last + [payload], max)
  {
    assert (last + [payload])[..|last|] == last;
  }

  lemma WrittenPacked(book: Book, payload: Bytes, max: int)
    requires Packed(book, max) && 0 < max
    ensures Packed(Written(book, payload, max), max)
  {
    if payload != [] {
      var last, next := book[|book| - 1], Extended(book, payload);
      JustFullOr(last, payload, max);
      assert next[|book| - 1] == last + [payload];
      if Tail(next).offset < max {
        assert Written(book, payload, max) == next;
      } else {
        assert Written(book, payload, max) == next + [[]] && Size([]) == 0;
      }
    }
  }

  lemma NothingLater(a: Book, b: Book)
    requires a != [] && (b == a || b == a + [[]])
    ensures Later(a, b) == []
  {
    var s := |a| - 1;
    assert b[s][|a[s]|..] == [];
    if b != a {
      assert FoundIn(b[s + 1], 0) == [];
      assert EntitiesFrom(b, s + 2) == [];
    }
  }

  // ---------------------------------------------------------------- walking the directory

  /** The bytes of the files, with a torn record at the end of the last. */
  function DirBytes(enc: Encoder, book: Book, torn: Bytes): (files: seq<Bytes>)
    ensures |files| == |book|
    ensures forall i :: 0 <= i < |book| ==>
              files[i] == FileBytes(enc, book[i]) + if i == |book| - 1 then torn else []
  {
    seq(|book|, i requires 0 <= i < |book| => FileBytes(enc, book[i]) + if i == |book| - 1 then torn else [])
  }

  datatype Walked = Walked(entities: seq<Entity>, ok: bool)

  /** An incomplete record ends the last file, but is an error in an earlier one. */
  function Ending(last: Read, isLast: bool): Read {
    if last == UnexpectedEOF && isLast then EOF else last
  }

  ghost function WalkFrom(dec: Decoder, files: seq<Bytes>, suffix: nat, off: nat): Walked
    requires Bounded(dec)
    decreases |files| - suffix
  {
    if suffix >= |files| then Walked([], true)
    else
      var w := WalkFile(dec, files[suffix], off);
      if Ending(w.last, suffix == |files| - 1) != EOF then Walked(Tagged(w.found, suffix), false)
      else
        var rest := WalkFrom(dec, files, suffix + 1, 0);
        Walked(Tagged(w.found, suffix) + rest.entities, rest.ok)
  }

  /** The walk fails if there is no file for the position. */
  ghost function Walk(dec: Decoder, files: seq<Bytes>, from: Pos): Walked
    requires Bounded(dec)
  {
    if from.suffix < |files| then WalkFrom(dec, files, from.suffix, from.offset) else Walked([], false)
  }

  ghost predicate AllSmall(book: Book) {
    forall i :: 0 <= i < |book| ==> Small(book[i])
  }

  lemma {:induction false} BytesAppend(enc: Encoder, x: seq<Bytes>, y: seq<Bytes>)
    requires forall p :: |enc(p)| == |p| + FRAME
    ensures FileBytes(enc, x + y) == FileBytes(enc, x) + FileBytes(enc, y) && |FileBytes(enc, x)| == Size(x)
  {
    if x == [] {
      assert x + y == y;
    } else {
      assert (x + y)[1..] == x[1..] + y;
      SizeFirst(x);
      BytesAppend(enc, x[1..], y);
    }
  }

  /** Walking from the end of the first part of a file finds the rest of it. */
  lemma WalkSuffix(enc: Encoder, dec: Decoder, x: seq<Bytes>, all: seq<Bytes>, torn: Bytes)
    requires Codec(enc, dec) && Small(all) && x <= all && ReadsAsEnd(dec, torn)
    ensures WalkFile(dec, FileBytes(enc, all) + torn, Size(x))
         == FileWalk(FoundIn(all[|x|..], Size(x)), if torn == [] then EOF else UnexpectedEOF)
  {
    assert all == x + all[|x|..];
    BytesAppend(enc, x, all[|x|..]);
    WalkFinds(enc, dec, FileBytes(enc, x), all[|x|..], torn);
  }

  lemma {:induction false} WalkFiles(enc: Encoder, dec: Decoder, book: Book, torn: Bytes, suffix: nat)
    requires Codec(enc, dec) && AllSmall(book) && ReadsAsEnd(dec, torn) && ReadsAsEnd(dec, [])
    ensures WalkFrom(dec, DirBytes(enc, book, torn), suffix, 0) == Walked(EntitiesFrom(book, suffix), true)
    decreases |book| - suffix
  {
    if suffix < |book| {
      var end := if suffix == |book| - 1 then torn else [];
      WalkSuffix(enc, dec, [], book[suffix], end);
      assert book[suffix][0..] == book[suffix];
      WalkFiles(enc, dec, book, torn, suffix + 1);
    }
  }

  lemma FromParts(dec: Decoder, files: seq<Bytes>, suffix: nat, off: nat, w: FileWalk, es: seq<Entity>)
    requires Bounded(dec) && suffix < |files| && WalkFile(dec, files[suffix], off) == w
    requires Ending(w.last, suffix == |files| - 1) == EOF && WalkFrom(dec, files, suffix + 1, 0) == Walked(es, true)
    ensures WalkFrom(dec, files, suffix, off) == Walked(Tagged(w.found, suffix) + es, true)
  {
  }

  /** A walk from the position returned by a write finds what was written later. */
  lemma WalkLater(enc: Encoder, dec: Decoder, a: Book, b: Book, torn: Bytes)
    requires Codec(enc, dec) && AllSmall(b) && ReadsAsEnd(dec, torn) && ReadsAsEnd(dec, []) && Continues(a, b)
    ensures Walk(dec, DirBytes(enc, b, torn), Tail(a)) == Walked(Later(a, b), true)
  {
    var s := |a| - 1;
    var end := if s == |b| - 1 then torn else [];
    WalkSuffix(enc, dec, a[s], b[s], end);
    WalkFiles(enc, dec, b, torn, s + 1);
    var w := FileWalk(FoundIn(b[s][|a[s]|..], Size(a[s])), if end == [] then EOF else UnexpectedEOF);
    FromParts(dec, DirBytes(enc, b, torn), s, Size(a[s]), w, EntitiesFrom(b, s + 1));
  }

  // ---------------------------------------------------------------- whole runs

  function WriteAll(payloads: seq<Bytes>, max: int): (book: Book)
    ensures book != []
  {
    if payloads == [] then [[]] else Written(WriteAll(payloads[..|payloads| - 1], max), payloads[|payloads| - 1], max)
  }

  /** After any writes the last file is below the threshold, and every earlier one reached it with its last
      record. */
  lemma {:induction false} FilesPacked(payloads: seq<Bytes>, max: int)
    requires 0 < max
    ensures Packed(WriteAll(payloads, max), max)
  {
    if payloads != [] {
      FilesPacked(payloads[..|payloads| - 1], max);
      WrittenPacked(WriteAll(payloads[..|payloads| - 1], max), payloads[|payloads| - 1], max);
    }
  }

  /** The position returned for a payload. */
  function Returned(payloads: seq<Bytes>, max: int, k: nat): Pos
    requires k < |payloads|
  {
    Tail(Extended(WriteAll(payloads[..k], max), payloads[k]))
  }

  ghost predicate Proper(payloads: seq<Bytes>) {
    Small(payloads) && forall i :: 0 <= i < |payloads| ==> payloads[i] != []
  }

  lemma {:induction false} WriteAllSmall(payloads: seq<Bytes>, max: int)
    requires Small(payloads)
    ensures AllSmall(WriteAll(payloads, max))
  {
    if payloads != [] {
      WriteAllSmall(payloads[..|payloads| - 1], max);
    }
  }

  lemma {:induction false} CountWritten(payloads: seq<Bytes>, max: int)
    requires Proper(payloads)
    ensures |EntitiesFrom(WriteAll(payloads, max), 0)| == |payloads|
  {
    if payloads != [] {
      var init := payloads[..|payloads| - 1];
      CountWritten(init, max);
      WrittenEntity(WriteAll(init, max), payloads[|payloads| - 1], max);
    }
  }

  /** The files hold the payloads in order, each at the position returned for it. */
  lemma {:induction false} EntityWritten(payloads: seq<Bytes>, max: int, k: nat)
    requires Proper(payloads) && k < |payloads|
    ensures k < |EntitiesFrom(WriteAll(payloads, max), 0)|
    ensures EntitiesFrom(WriteAll(payloads, max), 0)[k] == Entity(payloads[k], Returned(payloads, max, k))
  {
    var init := payloads[..|payloads| - 1];
    WrittenEntity(WriteAll(init, max), payloads[|payloads| - 1], max);
    CountWritten(init, max);
    if k < |init| {
      EntityWritten(init, max, k);
      assert init[..k] == payloads[..k];
    }
  }

  lemma LastWrite(init: seq<Bytes>, last: Bytes, max: int)
    requires Proper(init) && last != []
    ensures var book := WriteAll(init, max);
      && Continues(Extended(book, last), Written(book, last, max))
      && |EntitiesFrom(Extended(book, last), 0)| == |init| + 1
  {
    var book := WriteAll(init, max);
    WrittenEntity(book, last, max);
    CountWritten(init, max);
    OneLater(book, last);
    EntitiesSplit(book, Extended(book, last), 0);
  }

  lemma {:induction false} LaterWrites(payloads: seq<Bytes>, max: int, k: nat)
    requires Proper(payloads) && k < |payloads|
    ensures Continues(Extended(WriteAll(payloads[..k], max), payloads[k]), WriteAll(payloads, max))
    ensures |EntitiesFrom(Extended(WriteAll(payloads[..k], max), payloads[k]), 0)| == k + 1
  {
    var init, last := payloads[..|payloads| - 1], payloads[|payloads| - 1];
    if k == |init| {
      LastWrite(init, last, max);
    } else {
      assert init[..k] == payloads[..k];
      LaterWrites(init, max, k);
      WrittenContinues(Extended(WriteAll(payloads[..k], max), payloads[k]), WriteAll(init, max), last, max);
    }
  }

  lemma OneLater(book: Book, payload: Bytes)
    requires book != []
    ensures Continues(book, Extended(book, payload)) && |Later(book, Extended(book, payload))| == 1
  {
    var next, s := Extended(book, payload), |book| - 1;
    assert next[s][|book[s]|..] == [payload] && [payload][1..] == [];
    assert FoundIn([payload], Size(book[s])) == [Found(payload, Size(book[s]) + |payload| + FRAME)];
    assert EntitiesFrom(next, s + 1) == [];
  }

  /** The payloads, each at the position returned for it. */
  function Expected(payloads: seq<Bytes>, max: int): (es: seq<Entity>)
    ensures |es| == |payloads|
  {
    seq(|payloads|, i requires 0 <= i < |payloads| => Entity(payloads[i], Returned(payloads, max, i)))
  }

  lemma AllWritten(payloads: seq<Bytes>, max: int)
    requires Proper(payloads)
    ensures EntitiesFrom(WriteAll(payloads, max), 0) == Expected(payloads, max)
  {
    CountWritten(payloads, max);
    forall i | 0 <= i < |payloads| ensures EntitiesFrom(WriteAll(payloads, max), 0)[i] == Expected(payloads, max)[i] {
      EntityWritten(payloads, max, i);
    }
  }

  lemma AfterFirst(all: seq<Entity>, first: seq<Entity>, later: seq<Entity>)
    requires all == first + later
    ensures later == all[|first|..]
  {
  }

  lemma LaterEntities(payloads: seq<Bytes>, max: int, k: nat)
    requires Proper(payloads) && k < |payloads|
    ensures var a, b := Extended(WriteAll(payloads[..k], max), payloads[k]), WriteAll(payloads, max);
            Continues(a, b) && Later(a, b) == Expected(payloads, max)[k + 1..]
  {
    var a, b := Extended(WriteAll(payloads[..k], max), payloads[k]), WriteAll(payloads, max);
    LaterWrites(payloads, max, k);
    EntitiesSplit(a, b, 0);
    AllWritten(payloads, max);
    AfterFirst(EntitiesFrom(b, 0), EntitiesFrom(a, 0), Later(a, b));
  }

  lemma WalkBackWith(enc: Encoder, dec: Decoder, payloads: seq<Bytes>, max: int, k: nat, torn: Bytes)
    requires Codec(enc, dec) && ReadsAsEnd(dec, torn) && ReadsAsEnd(dec, [])
    requires Proper(payloads) && k < |payloads|
    ensures Walk(dec, DirBytes(enc, WriteAll(payloads, max), torn), Returned(payloads, max, k))
         == Walked(Expected(payloads, max)[k + 1..], true)
  {
    WriteAllSmall(payloads, max);
    LaterEntities(payloads, max, k);
    WalkLater(enc, dec, Extended(WriteAll(payloads[..k], max), payloads[k]), WriteAll(payloads, max), torn);
  }

  /** Main result: after writing any nonempty payloads with any threshold, a walk from a returned
      position gives back exactly the later payloads with the positions returned for them, and a
      torn record at the end is the end. */
  lemma WalkBack(crc: Bytes -> u32, payloads: seq<Bytes>, max: int, k: nat, torn: Bytes)
    requires Proper(payloads) && k < |payloads| && Torn(crc, torn)
    ensures Bounded(DecoderOf(crc))
    ensures Walk(DecoderOf(crc), DirBytes(EncoderOf(crc), WriteAll(payloads, max), torn), Returned(payloads, max, k))
         == Walked(Expected(payloads, max)[k + 1..], true)
  {
    CodecOf(crc);
    TornReads(crc, torn);
    TornReads(crc, []);
    WalkBackWith(EncoderOf(crc), DecoderOf(crc), payloads, max, k, torn);
  }

  /** A walk from the start gives back everything. */
  lemma WalkAll(crc: Bytes -> u32, payloads: seq<Bytes>, max: int, torn: Bytes)
    requires Proper(payloads) && Torn(crc, torn)
    ensures Bounded(DecoderOf(crc))
    ensures Walk(DecoderOf(crc), DirBytes(EncoderOf(crc), WriteAll(payloads, max), torn), Pos(0, 0))
         == Walked(Expected(payloads, max), true)
  {
    CodecOf(crc);
    TornReads(crc, torn);
    TornReads(crc, []);
    WriteAllSmall(payloads, max);
    AllWritten(payloads, max);
    WalkFiles(EncoderOf(crc), DecoderOf(crc), WriteAll(payloads, max), torn, 0);
  }
}
