/** Walking binlog files that are damaged: arbitrary bytes, wrong checksums, and records written
    behind a torn one. */
module BinlogDamage {
  import opened Collections
  import opened LittleEndian
  import opened BinlogFile

  // ---------------------------------------------------------------- arbitrary bytes

  /** Where a found record begins. */
  function StartOf(f: Found): int {
    f.end - |f.payload| - FRAME
  }

  /** The records found are read at their places, and none begins before the one before it ends. */
  ghost predicate Sound(dec: Decoder, d: Bytes, start: nat, found: seq<Found>) {
    && (forall i :: 0 <= i < |found| ==>
          start <= StartOf(found[i]) && found[i].end <= |d| && dec(d, StartOf(found[i])) == Record(found[i].payload))
    && (forall i, j :: 0 <= i < j < |found| ==> found[i].end <= StartOf(found[j]))
  }

  lemma SoundCons(dec: Decoder, d: Bytes, start: nat, f: Found, rest: seq<Found>)
    requires start <= StartOf(f) && f.end <= |d| && dec(d, StartOf(f)) == Record(f.payload)
    requires Sound(dec, d, f.end, rest)
    ensures Sound(dec, d, start, [f] + rest)
  {
    var all := [f] + rest;
    forall i | 0 <= i < |all|
      ensures start <= StartOf(all[i]) && all[i].end <= |d| && dec(d, StartOf(all[i])) == Record(all[i].payload)
    {
      assert i > 0 ==> all[i] == rest[i - 1];
    }
    forall i, j | 0 <= i < j < |all| ensures all[i].end <= StartOf(all[j]) {
      assert all[j] == rest[j - 1] && (i > 0 ==> all[i] == rest[i - 1]);
    }
  }

  /** On arbitrary bytes a walk delivers valid records in order, which do not overlap. */
  lemma {:induction false} WalkSound(dec: Decoder, d: Bytes, off: nat)
    requires Bounded(dec)
    ensures Sound(dec, d, off, WalkFile(dec, d, off).found)
    decreases |d| - off
  {
    match dec(d, off)
    case Record(payload) =>
      var end := off + |payload| + FRAME;
      WalkSound(dec, d, end);
      SoundCons(dec, d, off, Found(payload, end), WalkFile(dec, d, end).found);
    case BadMagic =>
      if Search(d, off + 1).Some? {
        WalkSound(dec, d, Search(d, off + 1).value);
      }
    case _ =>
  }

  /** A record is read only where there is the magic, and the end only at the end. */
  ghost predicate NeedsMagic(dec: Decoder) {
    && (forall d, off: nat :: dec(d, off).Record? ==> MagicAt(d, off))
    && (forall d, off: nat :: dec(d, off) == EOF ==> |d| <= off)
  }

  /** A found record covers the offset; if it begins there, it is the record there. */
  ghost predicate Covers(dec: Decoder, d: Bytes, found: seq<Found>, off: nat) {
    exists i :: 0 <= i < |found| && StartOf(found[i]) <= off < found[i].end
                && (StartOf(found[i]) == off ==> dec(d, off) == Record(found[i].payload))
  }

  /** The walk was stopped at an earlier offset by something it does not skip. */
  ghost predicate StoppedBefore(dec: Decoder, d: Bytes, start: nat, last: Read, off: nat) {
    exists stop: nat :: start <= stop < off && dec(d, stop) == last && (last == BadCRC || last == UnexpectedEOF || last == Crash)
  }

  lemma CoversCons(dec: Decoder, d: Bytes, f: Found, rest: seq<Found>, off: nat)
    requires Covers(dec, d, rest, off)
    ensures Covers(dec, d, [f] + rest, off)
  {
    var i :| 0 <= i < |rest| && StartOf(rest[i]) <= off < rest[i].end
             && (StartOf(rest[i]) == off ==> dec(d, off) == Record(rest[i].payload));
    assert ([f] + rest)[i + 1] == rest[i];
  }

  /** What a walk misses: a valid record past the start is delivered, unless an earlier delivered
      record overlaps it or the walk stopped before it at a wrong checksum, an incomplete record or a
      negative length. */
  lemma {:induction false} WalkComplete(dec: Decoder, d: Bytes, start: nat, off: nat)
    requires Bounded(dec) && NeedsMagic(dec) && start <= off && dec(d, off).Record?
    ensures Covers(dec, d, WalkFile(dec, d, start).found, off)
            || StoppedBefore(dec, d, start, WalkFile(dec, d, start).last, off)
    decreases |d| - start
  {
    match dec(d, start)
    case Record(payload) =>
      var end := start + |payload| + FRAME;
      var rest := WalkFile(dec, d, end);
      var f := Found(payload, end);
      if off < end {
        assert ([f] + rest.found)[0] == f;
      } else {
        WalkComplete(dec, d, end, off);
        if Covers(dec, d, rest.found, off) {
          CoversCons(dec, d, f, rest.found, off);
        }
      }
    case BadMagic =>
      SearchFirst(d, start + 1);
      assert MagicAt(d, off);
      var next := Search(d, start + 1).value;
      WalkComplete(dec, d, next, off);
    case EOF => assert false;
    case _ =>
  }

  lemma DecoderNeedsMagic(crc: Bytes -> u32)
    ensures Bounded(DecoderOf(crc)) && NeedsMagic(DecoderOf(crc))
  {
    CodecOf(crc);
  }

  /** The same for the decoder there is. */
  lemma WalkMisses(crc: Bytes -> u32, d: Bytes, start: nat, off: nat)
    requires start <= off && DecoderOf(crc)(d, off).Record?
    ensures Bounded(DecoderOf(crc))
    ensures var w := WalkFile(DecoderOf(crc), d, start);
      Covers(DecoderOf(crc), d, w.found, off) || StoppedBefore(DecoderOf(crc), d, start, w.last, off)
  {
    DecoderNeedsMagic(crc);
    WalkComplete(DecoderOf(crc), d, start, off);
  }

  // ---------------------------------------------------------------- wrong checksums

  /** A well-framed record with any checksum field. */
  datatype Framed = Framed(payload: Bytes, sum: u32)

  type FrameCoder = Framed -> Bytes

  function Framer(): FrameCoder {
    (f: Framed) => FrameBytes(f.payload, f.sum)
  }

  function FramesBytes(enc: FrameCoder, fs: seq<Framed>): Bytes {
    if fs == [] then [] else enc(fs[0]) + FramesBytes(enc, fs[1..])
  }

  predicate Matches(crc: Bytes -> u32, f: Framed) {
    crc(f.payload) == f.sum
  }

  ghost predicate FrameCodec(crc: Bytes -> u32, enc: FrameCoder, dec: Decoder) {
    && Bounded(dec)
    && (forall f :: |enc(f)| == |f.payload| + FRAME)
    && (forall pre, f: Framed, post {:trigger dec(pre + enc(f) + post, |pre|)} :: |f.payload| < MAX_INT64 ==>
          dec(pre + enc(f) + post, |pre|) == if Matches(crc, f) then Record(f.payload) else BadCRC)
    && (forall pre, e :: e == [] ==> dec(pre + e, |pre|) == EOF)
  }

  lemma FrameCodecOf(crc: Bytes -> u32)
    ensures FrameCodec(crc, Framer(), DecoderOf(crc))
  {
    CodecOf(crc);
    var enc, dec := Framer(), DecoderOf(crc);
    forall pre, f: Framed, post | |f.payload| < MAX_INT64
      ensures dec(pre + enc(f) + post, |pre|) == if Matches(crc, f) then Record(f.payload) else BadCRC
    {
      DecodeFrame(crc, pre, f.payload, f.sum, post);
    }
  }

  /** The payloads before the first wrong checksum. */
  function Matching(crc: Bytes -> u32, fs: seq<Framed>): seq<Bytes> {
    if fs == [] || !Matches(crc, fs[0]) then [] else [fs[0].payload] + Matching(crc, fs[1..])
  }

  function Payloads(fs: seq<Framed>): seq<Bytes> {
    if fs == [] then [] else [fs[0].payload] + Payloads(fs[1..])
  }

  ghost predicate AllMatch(crc: Bytes -> u32, fs: seq<Framed>) {
    forall i :: 0 <= i < |fs| ==> Matches(crc, fs[i])
  }

  ghost predicate SmallFrames(fs: seq<Framed>) {
    forall i :: 0 <= i < |fs| ==> |fs[i].payload| < MAX_INT64
  }

  lemma {:induction false} WalkFrames(crc: Bytes -> u32, enc: FrameCoder, dec: Decoder, pre: Bytes, fs: seq<Framed>)
    requires FrameCodec(crc, enc, dec) && SmallFrames(fs)
    ensures WalkFile(dec, pre + FramesBytes(enc, fs), |pre|)
         == FileWalk(FoundIn(Matching(crc, fs), |pre|), if AllMatch(crc, fs) then EOF else BadCRC)
    decreases |fs|
  {
    if fs == [] {
      assert dec(pre + FramesBytes(enc, fs), |pre|) == EOF;
    } else {
      var e, rest := enc(fs[0]), FramesBytes(enc, fs[1..]);
      assert pre + FramesBytes(enc, fs) == pre + e + rest;
      if Matches(crc, fs[0]) {
        WalkFrames(crc, enc, dec, pre + e, fs[1..]);
        MatchTail(crc, fs);
      }
    }
  }

  lemma MatchTail(crc: Bytes -> u32, fs: seq<Framed>)
    requires fs != [] && Matches(crc, fs[0])
    ensures AllMatch(crc, fs) <==> AllMatch(crc, fs[1..])
  {
    if AllMatch(crc, fs[1..]) {
      forall i | 0 <= i < |fs| ensures Matches(crc, fs[i]) {
        assert i > 0 ==> fs[i] == fs[1..][i - 1];
      }
    }
  }

  lemma {:induction false} MatchingAll(crc: Bytes -> u32, fs: seq<Framed>)
    ensures |Matching(crc, fs)| <= |Payloads(fs)| && Matching(crc, fs) == Payloads(fs)[..|Matching(crc, fs)|]
    ensures Matching(crc, fs) == Payloads(fs) <==> AllMatch(crc, fs)
  {
    if fs != [] && Matches(crc, fs[0]) {
      MatchingAll(crc, fs[1..]);
      MatchTail(crc, fs);
    }
  }

  lemma {:induction false} FoundSame(a: seq<Bytes>, b: seq<Bytes>, off: nat)
    requires FoundIn(a, off) == FoundIn(b, off)
    ensures a == b
    decreases |a|
  {
    if a != [] && b != [] {
      assert FoundIn(a, off)[0] == FoundIn(b, off)[0] && FoundIn(a, off)[1..] == FoundIn(b, off)[1..];
      FoundSame(a[1..], b[1..], off + |a[0]| + FRAME);
    }
  }

  /** Main result: on a file of well-framed records a walk returns exactly the records before the first
      wrong checksum, and ends there with an error; so it returns all of them if and only if every
      checksum field matches. */
  lemma ChecksumExact(crc: Bytes -> u32, fs: seq<Framed>)
    requires SmallFrames(fs)
    ensures Bounded(DecoderOf(crc))
    ensures var w := WalkFile(DecoderOf(crc), FramesBytes(Framer(), fs), 0);
      && w.found == FoundIn(Matching(crc, fs), 0)
      && (w.found == FoundIn(Payloads(fs), 0) <==> AllMatch(crc, fs))
      && w.last == if AllMatch(crc, fs) then EOF else BadCRC
  {
    FrameCodecOf(crc);
    WalkFrames(crc, Framer(), DecoderOf(crc), [], fs);
    assert [] + FramesBytes(Framer(), fs) == FramesBytes(Framer(), fs);
    MatchingAll(crc, fs);
    if FoundIn(Matching(crc, fs), 0) == FoundIn(Payloads(fs), 0) {
      FoundSame(Matching(crc, fs), Payloads(fs), 0);
    }
  }

  /** A walk that meets such a file fails after the records before the wrong checksum. */
  lemma ChecksumFailsWalk(crc: Bytes -> u32, files: seq<Bytes>, suffix: nat, fs: seq<Framed>)
    requires SmallFrames(fs) && !AllMatch(crc, fs) && suffix < |files| && files[suffix] == FramesBytes(Framer(), fs)
    ensures Bounded(DecoderOf(crc))
    ensures Walk(DecoderOf(crc), files, Pos(suffix, 0)) == Walked(Tagged(FoundIn(Matching(crc, fs), 0), suffix), false)
  {
    ChecksumExact(crc, fs);
  }

  /** A file of two records: the checksum field of the first is wrong, and the intact second one is
      not returned. */
  lemma IntactRecordLost()
    ensures var crc: Bytes -> u32 := (_: Bytes) => 0;
      && Bounded(DecoderOf(crc))
      && WalkFile(DecoderOf(crc), FramesBytes(Framer(), [Framed([7], 1), Framed([8], 0)]), 0) == FileWalk([], BadCRC)
  {
    var crc: Bytes -> u32 := (_: Bytes) => 0;
    var fs := [Framed([7], 1), Framed([8], 0)];
    ChecksumExact(crc, fs);
    assert !Matches(crc, fs[0]) && Matching(crc, fs) == [];
  }

  // ---------------------------------------------------------------- writing behind a torn record

  lemma MagicDigits()
    ensures Digits(MAGIC, 4) == [0x04, 0x05, 0x1b, 0x1c]
  {
    assert Digits(MAGIC / 0x100 / 0x100 / 0x100, 1) == [0x1c];
    assert Digits(MAGIC / 0x100 / 0x100, 2) == [0x1b, 0x1c];
    assert Digits(MAGIC / 0x100, 3) == [0x05, 0x1b, 0x1c];
  }

  lemma {:induction false} ValueInjective(x: Bytes, y: Bytes)
    requires |x| == |y| && Value(x) == Value(y)
    ensures x == y
  {
    if x != [] {
      assert x[0] == y[0] && Value(x[1..]) == Value(y[1..]);
      ValueInjective(x[1..], y[1..]);
      assert x == [x[0]] + x[1..] && y == [y[0]] + y[1..];
    }
  }

  lemma MagicBytes(d: Bytes, off: nat)
    requires off + 4 <= |d|
    ensures MagicAt(d, off) <==> d[off..off + 4] == Digits(MAGIC, 4)
  {
    Bounds();
    DigitsValue(MAGIC, 4);
    if MagicAt(d, off) {
      ValueInjective(d[off..off + 4], Digits(MAGIC, 4));
    }
  }

  /** The magic does not overlap itself: cut off after at most three bytes and begun again, it is found
      only where it begins again. */
  lemma CutMagic(d: Bytes, off: nat, next: nat)
    requires off <= next < off + 4 && next + 4 <= |d|
    requires d[off..next] == Digits(MAGIC, 4)[..next - off] && d[next..next + 4] == Digits(MAGIC, 4)
    ensures MagicAt(d, next) && forall i :: off <= i < next ==> !MagicAt(d, i)
  {
    MagicDigits();
    MagicBytes(d, next);
    forall i | off <= i < next ensures !MagicAt(d, i) {
      MagicBytes(d, i);
      assert d[i..i + 4][next - i] == d[next] == d[next..next + 4][0];
    }
  }

  lemma {:induction false} SearchSkips(d: Bytes, off: nat, next: nat)
    requires off <= next && MagicAt(d, next) && forall i :: off <= i < next ==> !MagicAt(d, i)
    ensures Search(d, off) == Some(next)
    decreases next - off
  {
    if off < next {
      SearchSkips(d, off + 1, next);
    }
  }

  /** A file is reopened and appended to behind the first `n` bytes of a record that was being
      written. */
  function Reopened(enc: Encoder, a: seq<Bytes>, q: Bytes, n: nat, b: seq<Bytes>): Bytes
    requires n <= |enc(q)|
  {
    FileBytes(enc, a) + enc(q)[..n] + FileBytes(enc, b)
  }

  /** What should be found: the payloads before the torn record and those written behind it. */
  function Wanted(a: seq<Bytes>, n: nat, b: seq<Bytes>): seq<Found> {
    FoundIn(a, 0) + FoundIn(b, Size(a) + n)
  }

  lemma WalkRecord(dec: Decoder, d: Bytes, off: nat, payload: Bytes)
    requires Bounded(dec) && dec(d, off) == Record(payload)
    ensures var rest := WalkFile(dec, d, off + |payload| + FRAME);
            WalkFile(dec, d, off) == FileWalk([Found(payload, off + |payload| + FRAME)] + rest.found, rest.last)
  {
  }

  lemma FoundJoined(f: Found, x: seq<Found>, y: seq<Found>)
    ensures [f] + (x + y) == [f] + x + y && [] + y == y
  {
  }

  /** The payloads are read one after another from an offset on. */
  ghost predicate Laid(dec: Decoder, d: Bytes, off: nat, a: seq<Bytes>)
    decreases |a|
  {
    a != [] ==> dec(d, off) == Record(a[0]) && Laid(dec, d, off + |a[0]| + FRAME, a[1..])
  }

  lemma {:induction false} FileLaid(enc: Encoder, dec: Decoder, pre: Bytes, a: seq<Bytes>, post: Bytes)
    requires Codec(enc, dec) && Small(a)
    ensures Laid(dec, pre + FileBytes(enc, a) + post, |pre|, a)
    decreases |a|
  {
    if a != [] {
      var e, rest := enc(a[0]), FileBytes(enc, a[1..]);
      Regroup(pre, e, rest, post);
      assert dec(pre + e + (rest + post), |pre|) == Record(a[0]);
      FileLaid(enc, dec, pre + e, a[1..], post);
    }
  }

  /** A walk reaches the end of intact records and goes on from there. */
  lemma {:induction false} WalkThrough(dec: Decoder, d: Bytes, off: nat, a: seq<Bytes>)
    requires Bounded(dec) && Laid(dec, d, off, a)
    ensures WalkFile(dec, d, off).found == FoundIn(a, off) + WalkFile(dec, d, off + Size(a)).found
    decreases |a|
  {
    var tail := WalkFile(dec, d, off + Size(a));
    if a == [] {
      FoundJoined(Found([], 0), [], tail.found);
    } else {
      var end := off + |a[0]| + FRAME;
      WalkRecord(dec, d, off, a[0]);
      SizeFirst(a);
      WalkThrough(dec, d, end, a[1..]);
      FoundJoined(Found(a[0], end), FoundIn(a[1..], end), tail.found);
    }
  }

  lemma {:induction false} FoundLength(a: seq<Bytes>, off: nat)
    ensures |FoundIn(a, off)| == |a|
  {
    if a != [] {
      FoundLength(a[1..], off + |a[0]| + FRAME);
    }
  }

  /** At four bytes or more the torn record is taken for a record, and what is found there is never the
      payload behind it. */
  lemma TornMisleads(dec: Decoder, d: Bytes, off: nat, n: nat, b: seq<Bytes>)
    requires Bounded(dec) && 0 < n && b != [] && dec(d, off) != BadMagic
    ensures WalkFile(dec, d, off).found != FoundIn(b, off + n)
  {
    FoundLength(b, off + n);
    assert FoundIn(b, off + n)[0] == Found(b[0], off + n + |b[0]| + FRAME);
    if dec(d, off).Record? {
      WalkRecord(dec, d, off, dec(d, off).payload);
    }
  }

  /** With fewer bytes the walk finds its way to the payloads behind it. */
  lemma TornSkipped(dec: Decoder, d: Bytes, off: nat, n: nat)
    requires Bounded(dec) && 0 < n < 4 && dec(d, off) == BadMagic
    requires MagicAt(d, off + n) && forall i :: off <= i < off + n ==> !MagicAt(d, i)
    ensures WalkFile(dec, d, off) == WalkFile(dec, d, off + n)
  {
    SearchSkips(d, off + 1, off + n);
  }

  /** What a decoder says about the magic. */
  ghost predicate ChecksMagic(dec: Decoder) {
    forall d, off: nat :: off + 4 <= |d| ==> (dec(d, off) == BadMagic <==> !MagicAt(d, off))
  }

  /** Every record begins with the magic. */
  ghost predicate StartsWithMagic(enc: Encoder) {
    forall p :: |enc(p)| >= 4 && enc(p)[..4] == Digits(MAGIC, 4)
  }

  /** The bytes around the cut. */
  lemma ReopenedMagic(enc: Encoder, pre: Bytes, q: Bytes, n: nat, post: Bytes)
    requires StartsWithMagic(enc) && n <= |enc(q)| && |post| >= 4 && post[..4] == Digits(MAGIC, 4)
    ensures var d := pre + enc(q)[..n] + post;
      if n < 4 then MagicAt(d, |pre| + n) && forall i :: |pre| <= i < |pre| + n ==> !MagicAt(d, i)
      else MagicAt(d, |pre|)
  {
    var d, off := pre + enc(q)[..n] + post, |pre|;
    if n < 4 {
      assert d[off..off + n] == enc(q)[..4][..n];
      assert d[off + n..off + n + 4] == post[..4];
      CutMagic(d, off, off + n);
    } else {
      assert d[off..off + 4] == enc(q)[..4];
      MagicBytes(d, off);
    }
  }

  lemma FirstMagic(enc: Encoder, b: seq<Bytes>)
    requires StartsWithMagic(enc) && b != []
    ensures |FileBytes(enc, b)| >= 4 && FileBytes(enc, b)[..4] == Digits(MAGIC, 4)
  {
    var e := enc(b[0]);
    assert FileBytes(enc, b) == e + FileBytes(enc, b[1..]);
    assert FileBytes(enc, b)[..4] == e[..4];
  }

  /** Intact records at the end of a file are found from where they begin. */
  lemma FoundBehind(enc: Encoder, dec: Decoder, pre: Bytes, b: seq<Bytes>)
    requires Codec(enc, dec) && ReadsAsEnd(dec, []) && Small(b)
    ensures WalkFile(dec, pre + FileBytes(enc, b), |pre|).found == FoundIn(b, |pre|)
  {
    WalkFinds(enc, dec, pre, b, []);
    assert pre + FileBytes(enc, b) + [] == pre + FileBytes(enc, b);
  }

  /** What lies around the cut. */
  ghost predicate CutAt(d: Bytes, off: nat, n: nat) {
    && off + n + 4 <= |d|
    && if n < 4 then MagicAt(d, off + n) && (forall i :: off <= i < off + n ==> !MagicAt(d, i)) else MagicAt(d, off)
  }

  /** What the walk finds from the cut on. */
  lemma AfterCut(dec: Decoder, d: Bytes, off: nat, n: nat, b: seq<Bytes>)
    requires Bounded(dec) && ChecksMagic(dec) && b != [] && CutAt(d, off, n)
    requires WalkFile(dec, d, off + n).found == FoundIn(b, off + n)
    ensures WalkFile(dec, d, off).found == FoundIn(b, off + n) <==> n < 4
  {
    if n >= 4 {
      TornMisleads(dec, d, off, n, b);
    } else if n > 0 {
      TornSkipped(dec, d, off, n);
    }
  }

  lemma SameBehind(all: seq<Found>, x: seq<Found>, y: seq<Found>, z: seq<Found>, fine: bool)
    requires all == x + y && (y == z <==> fine)
    ensures all == x + z <==> fine
  {
    assert (x + y)[|x|..] == y && (x + z)[|x|..] == z;
  }

  lemma CutEqual(pre: Bytes, torn: Bytes, post: Bytes)
    ensures pre + (torn + post) == pre + torn + post && |pre + torn| == |pre| + |torn|
  {
  }

  lemma ReopenAt(dec: Decoder, d: Bytes, a: seq<Bytes>, n: nat, b: seq<Bytes>)
    requires Bounded(dec) && Laid(dec, d, 0, a)
    requires WalkFile(dec, d, Size(a)).found == FoundIn(b, Size(a) + n) <==> n < 4
    ensures WalkFile(dec, d, 0).found == Wanted(a, n, b) <==> n < 4
  {
    WalkThrough(dec, d, 0, a);
    SameBehind(WalkFile(dec, d, 0).found, FoundIn(a, 0), WalkFile(dec, d, Size(a)).found, FoundIn(b, Size(a) + n), n < 4);
  }

  lemma CutHere(enc: Encoder, pre: Bytes, q: Bytes, n: nat, b: seq<Bytes>)
    requires StartsWithMagic(enc) && b != [] && n <= |enc(q)|
    ensures CutAt(pre + enc(q)[..n] + FileBytes(enc, b), |pre|, n)
  {
    FirstMagic(enc, b);
    ReopenedMagic(enc, pre, q, n, FileBytes(enc, b));
  }

  lemma ReopenLaid(enc: Encoder, dec: Decoder, a: seq<Bytes>, post: Bytes)
    requires Codec(enc, dec) && Small(a)
    ensures Laid(dec, FileBytes(enc, a) + post, 0, a) && |FileBytes(enc, a)| == Size(a)
  {
    FileLaid(enc, dec, [], a, post);
    assert [] + FileBytes(enc, a) + post == FileBytes(enc, a) + post;
    BytesAppend(enc, a, []);
  }

  lemma CutWith(enc: Encoder, dec: Decoder, pre: Bytes, q: Bytes, n: nat, b: seq<Bytes>, d: Bytes)
    requires Bounded(dec) && ChecksMagic(dec) && StartsWithMagic(enc) && b != [] && n <= |enc(q)|
    requires d == pre + enc(q)[..n] + FileBytes(enc, b) && WalkFile(dec, d, |pre| + n).found == FoundIn(b, |pre| + n)
    ensures WalkFile(dec, d, |pre|).found == FoundIn(b, |pre| + n) <==> n < 4
  {
    CutHere(enc, pre, q, n, b);
    AfterCut(dec, d, |pre|, n, b);
  }

  lemma CutFound(enc: Encoder, dec: Decoder, pre: Bytes, q: Bytes, n: nat, b: seq<Bytes>, d: Bytes)
    requires Codec(enc, dec) && ChecksMagic(dec) && StartsWithMagic(enc) && ReadsAsEnd(dec, [])
    requires Small(b) && b != [] && n <= |enc(q)| && d == pre + enc(q)[..n] + FileBytes(enc, b)
    ensures WalkFile(dec, d, |pre|).found == FoundIn(b, |pre| + n) <==> n < 4
  {
    var front := pre + enc(q)[..n];
    assert |front| == |pre| + n && d == front + FileBytes(enc, b);
    FoundBehind(enc, dec, front, b);
    CutWith(enc, dec, pre, q, n, b, d);
  }

  lemma ReopenWith(enc: Encoder, dec: Decoder, a: seq<Bytes>, q: Bytes, n: nat, b: seq<Bytes>)
    requires Codec(enc, dec) && ChecksMagic(dec) && StartsWithMagic(enc) && ReadsAsEnd(dec, [])
    requires Small(a) && Small(b) && b != [] && n <= |enc(q)|
    ensures WalkFile(dec, Reopened(enc, a, q, n, b), 0).found == Wanted(a, n, b) <==> n < 4
  {
    CutEqual(FileBytes(enc, a), enc(q)[..n], FileBytes(enc, b));
    ReopenLaid(enc, dec, a, enc(q)[..n] + FileBytes(enc, b));
    CutFound(enc, dec, FileBytes(enc, a), q, n, b, Reopened(enc, a, q, n, b));
    ReopenAt(dec, Reopened(enc, a, q, n, b), a, n, b);
  }

  /** Main result for reopening: when a binlogger goes on behind the first `n` bytes of a record that was
      being written, a later walk finds all payloads before and behind it if and only if `n` is less
      than four. */
  lemma ReopenExact(crc: Bytes -> u32, a: seq<Bytes>, q: Bytes, n: nat, b: seq<Bytes>)
    requires Small(a) && Small(b) && b != [] && n < |q| + FRAME
    ensures Bounded(DecoderOf(crc))
    ensures WalkFile(DecoderOf(crc), Reopened(EncoderOf(crc), a, q, n, b), 0).found == Wanted(a, n, b) <==> n < 4
  {
    CodecOf(crc);
    TornReads(crc, []);
    assert StartsWithMagic(EncoderOf(crc)) by {
      forall p ensures Encode(crc, p)[..4] == Digits(MAGIC, 4) {
      }
    }
    ReopenWith(EncoderOf(crc), DecoderOf(crc), a, q, n, b);
  }
}
