/** The value log of a pump: numbered files of records, of which only the one with the highest
    id is open for writing; rotation finalises a file with a footer.

    `Volume` is the abstract value: for every file the entries written to it.  The class keeps
    the bytes, and its methods are proved against functions on volumes. */
module ValueLog {
  import opened Collections
  import opened LittleEndian
  import opened RecordLog

  /** A request: the payload and the timestamp it is indexed under. */
  datatype Entry = Entry(payload: seq<byte>, ts: int) {
    function Len(): nat {
      HEADER_LENGTH + |payload|
    }

    predicate Fits() {
      |payload| < MAX_INT64 && 0 <= ts < MAX_INT64
    }
  }

  datatype Pointer = Pointer(fid: nat, off: nat) {
    predicate Less(other: Pointer) {
      if fid != other.fid then fid < other.fid else off < other.off
    }
  }

  // ---------------------------------------------------------------- one file

  predicate AllFit(es: seq<Entry>) {
    forall i :: 0 <= i < |es| ==> es[i].Fits()
  }

  function Size(es: seq<Entry>): nat {
    if es == [] then 0 else Size(es[..|es| - 1]) + es[|es| - 1].Len()
  }

  /** How entries are laid out in a file.  Most facts need only the lengths. */
  type Layout = Entry -> seq<byte>

  ghost predicate Sized(lay: Layout) {
    forall e: Entry {:trigger lay(e)} :: e.Fits() ==> |lay(e)| == e.Len()
  }

  /** The layout of the value log: entries are encoded records. */
  ghost predicate Records(crc: seq<byte> -> u32, lay: Layout) {
    forall e: Entry {:trigger lay(e)} :: e.Fits() ==> lay(e) == Encode(crc, e.payload)
  }

  function Bytes(lay: Layout, es: seq<Entry>): (d: seq<byte>) {
    if es == [] then [] else Bytes(lay, es[..|es| - 1]) + lay(es[|es| - 1])
  }

  lemma {:induction false} BytesSize(lay: Layout, es: seq<Entry>)
    requires Sized(lay) && AllFit(es)
    ensures |Bytes(lay, es)| == Size(es)
  {
    if es != [] {
      BytesSize(lay, es[..|es| - 1]);
    }
  }

  function MaxTs(es: seq<Entry>): int {
    if es == [] then 0
    else
      var m := MaxTs(es[..|es| - 1]);
      if es[|es| - 1].ts > m then es[|es| - 1].ts else m
  }

  lemma {:induction false} MaxTsBounds(es: seq<Entry>)
    ensures 0 <= MaxTs(es) && forall e :: e in es ==> e.ts <= MaxTs(es)
  {
    if es != [] {
      var init, last := es[..|es| - 1], es[|es| - 1];
      MaxTsBounds(init);
      assert es == init + [last];
    }
  }

  lemma {:induction false} MaxTsFits(es: seq<Entry>)
    requires AllFit(es)
    ensures MaxTs(es) < MAX_INT64
  {
    if es != [] {
      MaxTsFits(es[..|es| - 1]);
      assert es[|es| - 1].Fits();
    }
  }

  lemma {:induction false} SizeAppend(xs: seq<Entry>, ys: seq<Entry>)
    ensures Size(xs + ys) == Size(xs) + Size(ys)
  {
    if ys == [] {
      assert xs + ys == xs;
    } else {
      assert (xs + ys)[..|xs + ys| - 1] == xs + ys[..|ys| - 1];
      SizeAppend(xs, ys[..|ys| - 1]);
    }
  }

  lemma {:induction false} BytesAppend(lay: Layout, xs: seq<Entry>, ys: seq<Entry>)
    ensures Bytes(lay, xs + ys) == Bytes(lay, xs) + Bytes(lay, ys)
  {
    if ys == [] {
      assert xs + ys == xs;
    } else {
      var init, last := ys[..|ys| - 1], ys[|ys| - 1];
      assert (xs + ys)[..|xs + ys| - 1] == xs + init;
      BytesAppend(lay, xs, init);
      assert Bytes(lay, xs) + Bytes(lay, init) + lay(last) == Bytes(lay, xs) + (Bytes(lay, init) + lay(last));
    }
  }

  /** The entry that starts at an offset. */
  ghost predicate StartsAt(es: seq<Entry>, off: nat, k: nat) {
    k < |es| && off == Size(es[..k])
  }

  lemma SizeStep(es: seq<Entry>, k: nat)
    requires k < |es|
    ensures Size(es[..k + 1]) == Size(es[..k]) + es[k].Len()
  {
    var pre := es[..k + 1];
    assert pre[..k] == es[..k];
  }

  lemma SizeAt(es: seq<Entry>, k: nat)
    requires k < |es|
    ensures Size(es[..k + 1]) == Size(es[..k]) + es[k].Len() <= Size(es)
  {
    SizeStep(es, k);
    SizeAppend(es[..k + 1], es[k + 1..]);
    assert es == es[..k + 1] + es[k + 1..];
  }

  /** The bytes of the `k`-th entry are where its offset says. */
  lemma EntryBytes(lay: Layout, es: seq<Entry>, k: nat)
    requires Sized(lay) && AllFit(es) && k < |es|
    ensures Size(es[..k]) + es[k].Len() <= Size(es) == |Bytes(lay, es)|
    ensures Bytes(lay, es)[Size(es[..k])..Size(es[..k]) + es[k].Len()] == lay(es[k])
  {
    var pre, post := es[..k + 1], es[k + 1..];
    assert pre[..k] == es[..k] && pre[k] == es[k];
    assert es == pre + post;
    BytesAppend(lay, pre, post);
    SizeAt(es, k);
    BytesSize(lay, es);
    BytesSize(lay, es[..k]);
    assert Bytes(lay, pre) == Bytes(lay, es[..k]) + lay(es[k]);
  }

  /** Every entry is read back from its offset, whatever follows the entries in the file. */
  lemma EntryReads(crc: seq<byte> -> u32, lay: Layout, es: seq<Entry>, tail: seq<byte>, k: nat, size: nat)
    requires Sized(lay) && Records(crc, lay) && AllFit(es) && k < |es|
    requires Size(es) <= size <= |Bytes(lay, es)| + |tail|
    ensures RecordAt(crc, Bytes(lay, es) + tail, size, Size(es[..k])) == Some(es[k].payload)
  {
    EntryBytes(lay, es, k);
    var d, off := Bytes(lay, es) + tail, Size(es[..k]);
    assert d[off..off + es[k].Len()] == Bytes(lay, es)[off..off + es[k].Len()];
    ReadBack(crc, es[k].payload, d, size, off);
  }

  /** The records from entry `k` on, with their offsets. */
  function Hits(es: seq<Entry>, k: nat): seq<Hit>
    requires k <= |es|
  {
    seq(|es| - k, i requires 0 <= i < |es| - k => Hit(Size(es[..k + i]), es[k + i].payload))
  }

  lemma HitsStep(es: seq<Entry>, k: nat)
    requires k < |es|
    ensures Hits(es, k) == [Hit(Size(es[..k]), es[k].payload)] + Hits(es, k + 1)
  {
    var a, b := Hits(es, k), [Hit(Size(es[..k]), es[k].payload)] + Hits(es, k + 1);
    forall i | 0 <= i < |a| ensures a[i] == b[i] {
    }
  }

  /** A record can be read at the offset of every entry. */
  ghost predicate Laid(read: Reader, es: seq<Entry>) {
    forall k :: 0 <= k < |es| ==> read(Size(es[..k])) == Some(es[k].payload)
  }

  lemma FileLaid(crc: seq<byte> -> u32, lay: Layout, es: seq<Entry>, tail: seq<byte>)
    requires Sized(lay) && Records(crc, lay) && AllFit(es)
    ensures Size(es) == |Bytes(lay, es)| && Laid(FileReader(crc, Bytes(lay, es) + tail, Size(es)), es)
  {
    BytesSize(lay, es);
    forall k | 0 <= k < |es| ensures RecordAt(crc, Bytes(lay, es) + tail, Size(es), Size(es[..k])) == Some(es[k].payload) {
      EntryReads(crc, lay, es, tail, k, Size(es));
    }
  }

  /** Scanning a well-formed file from the start of an entry delivers exactly the entries from
      there on. */
  lemma {:induction false} ScanDelivers(read: Reader, es: seq<Entry>, k: nat)
    requires Laid(read, es) && k <= |es|
    ensures Greedy(read, Size(es), Size(es[..k])) == Hits(es, k)
    decreases |es| - k
  {
    if k == |es| {
      assert es[..k] == es;
    } else {
      SizeAt(es, k);
      ScanDelivers(read, es, k + 1);
      HitsStep(es, k);
    }
  }

  // ---------------------------------------------------------------- the volume

  datatype Volume = Volume(logs: map<nat, seq<Entry>>, maxFid: nat) {
    /** Files are numbered up to `maxFid`, the file being written. */
    predicate Ok() {
      maxFid in logs && forall fid :: fid in logs ==> fid <= maxFid
    }
  }

  function Put(v: Volume, es: seq<Entry>): Volume
    requires v.Ok()
  {
    v.(logs := v.logs[v.maxFid := v.logs[v.maxFid] + es])
  }

  function RotateIf(v: Volume, limit: int): (v': Volume)
    requires v.Ok()
    ensures v'.Ok()
  {
    if Size(v.logs[v.maxFid]) > limit then Volume(v.logs[v.maxFid + 1 := []], v.maxFid + 1) else v
  }

  /** The reference for a write: entry by entry, rotating as soon as a file is over the limit. */
  function WriteAll(v: Volume, es: seq<Entry>, limit: int): (v': Volume)
    requires v.Ok()
    ensures v'.Ok()
  {
    if es == [] then v else RotateIf(Put(WriteAll(v, es[..|es| - 1], limit), [es[|es| - 1]]), limit)
  }

  /** Where the next entry goes. */
  function NextPointer(v: Volume): Pointer
    requires v.Ok()
  {
    Pointer(v.maxFid, Size(v.logs[v.maxFid]))
  }

  function PointersOf(v: Volume, es: seq<Entry>, limit: int): (ps: seq<Pointer>)
    requires v.Ok()
    ensures |ps| == |es|
  {
    if es == [] then []
    else PointersOf(v, es[..|es| - 1], limit) + [NextPointer(WriteAll(v, es[..|es| - 1], limit))]
  }

  function Gc(v: Volume, ts: int): (v': Volume)
    requires v.Ok()
    ensures v'.Ok()
  {
    v.(logs := map fid | fid in v.logs && (fid == v.maxFid || MaxTs(v.logs[fid]) > ts) :: v.logs[fid])
  }

  /** The pointer leads to the entry. */
  ghost predicate Holds(v: Volume, p: Pointer, e: Entry) {
    p.fid in v.logs && exists k: nat :: StartsAt(v.logs[p.fid], p.off, k) && v.logs[p.fid][k] == e
  }

  lemma HoldsPut(v: Volume, es: seq<Entry>, p: Pointer, e: Entry)
    requires v.Ok() && Holds(v, p, e)
    ensures Holds(Put(v, es), p, e)
  {
    var k: nat :| StartsAt(v.logs[p.fid], p.off, k) && v.logs[p.fid][k] == e;
    assert Put(v, es).logs[p.fid][..k] == v.logs[p.fid][..k];
    assert StartsAt(Put(v, es).logs[p.fid], p.off, k);
  }

  lemma HoldsRotate(v: Volume, limit: int, p: Pointer, e: Entry)
    requires v.Ok() && Holds(v, p, e)
    ensures Holds(RotateIf(v, limit), p, e)
  {
  }

  lemma {:induction false} HoldsWrite(v: Volume, es: seq<Entry>, limit: int, p: Pointer, e: Entry)
    requires v.Ok() && Holds(v, p, e)
    ensures Holds(WriteAll(v, es, limit), p, e)
  {
    if es != [] {
      var w := WriteAll(v, es[..|es| - 1], limit);
      HoldsWrite(v, es[..|es| - 1], limit, p, e);
      HoldsPut(w, [es[|es| - 1]], p, e);
      HoldsRotate(Put(w, [es[|es| - 1]]), limit, p, e);
    }
  }

  lemma PutHolds(v: Volume, e: Entry)
    requires v.Ok()
    ensures Holds(Put(v, [e]), NextPointer(v), e)
  {
    var old_ := v.logs[v.maxFid];
    var new_ := Put(v, [e]).logs[v.maxFid];
    assert new_[..|old_|] == old_;
    assert StartsAt(new_, Size(old_), |old_|);
  }

  /** A write gives every request a pointer that leads to it. */
  lemma {:induction false} WriteHolds(v: Volume, es: seq<Entry>, limit: int, i: nat)
    requires v.Ok() && i < |es|
    ensures Holds(WriteAll(v, es, limit), PointersOf(v, es, limit)[i], es[i])
  {
    var init, last := es[..|es| - 1], es[|es| - 1];
    var w := WriteAll(v, init, limit);
    var p := PointersOf(v, es, limit)[i];
    if i == |init| {
      PutHolds(w, last);
    } else {
      WriteHolds(v, init, limit, i);
      HoldsPut(w, [last], p, es[i]);
    }
    HoldsRotate(Put(w, [last]), limit, p, es[i]);
  }

  /** Files and sizes only grow. */
  lemma {:induction false} NextRises(v: Volume, es: seq<Entry>, limit: int)
    requires v.Ok()
    ensures var p, q := NextPointer(v), NextPointer(WriteAll(v, es, limit)); if es == [] then q == p else p.Less(q)
  {
    if es != [] {
      var init, last := es[..|es| - 1], es[|es| - 1];
      var w := WriteAll(v, init, limit);
      NextRises(v, init, limit);
      SizeAppend(w.logs[w.maxFid], [last]);
    }
  }

  lemma {:induction false} WriteSplit(v: Volume, es: seq<Entry>, limit: int, i: nat)
    requires v.Ok() && i <= |es|
    ensures WriteAll(v, es, limit) == WriteAll(WriteAll(v, es[..i], limit), es[i..], limit)
    decreases |es|
  {
    if i == |es| {
      assert es[..i] == es && es[i..] == [];
    } else {
      var init := es[..|es| - 1];
      WriteSplit(v, init, limit, i);
      assert init[..i] == es[..i] && init[i..] == es[i..][..|es| - i - 1] && es[i..][|es| - i - 1] == es[|es| - 1];
    }
  }

  lemma {:induction false} PointerIs(v: Volume, es: seq<Entry>, limit: int, i: nat)
    requires v.Ok() && i < |es|
    ensures PointersOf(v, es, limit)[i] == NextPointer(WriteAll(v, es[..i], limit))
    decreases |es|
  {
    if i < |es| - 1 {
      PointerIs(v, es[..|es| - 1], limit, i);
      assert es[..|es| - 1][..i] == es[..i];
    }
  }

  /** The pointers of a write rise strictly, by file and then by offset, and so are all different. */
  lemma PointersRise(v: Volume, es: seq<Entry>, limit: int, i: nat, j: nat)
    requires v.Ok() && i < j < |es|
    ensures var p, q := PointersOf(v, es, limit)[i], PointersOf(v, es, limit)[j]; p.Less(q) && !q.Less(p) && p != q
  {
    PointerIs(v, es, limit, i);
    PointerIs(v, es, limit, j);
    WriteSplit(v, es[..j], limit, i);
    assert es[..j][..i] == es[..i];
    NextRises(WriteAll(v, es[..i], limit), es[..j][i..], limit);
  }

  // ---------------------------------------------------------------- histories

  datatype Op = WriteOp(es: seq<Entry>) | GcOp(ts: int)

  /** A write call ends with one more check of the limit. */
  function Do(v: Volume, op: Op, limit: int): (v': Volume)
    requires v.Ok()
    ensures v'.Ok()
  {
    match op
    case WriteOp(es) => RotateIf(WriteAll(v, es, limit), limit)
    case GcOp(ts) => Gc(v, ts)
  }

  function DoAll(v: Volume, ops: seq<Op>, limit: int): (v': Volume)
    requires v.Ok()
    ensures v'.Ok()
    decreases |ops|
  {
    if ops == [] then v else DoAll(Do(v, ops[0], limit), ops[1..], limit)
  }

  lemma {:induction false} HoldsAfter(v: Volume, ops: seq<Op>, limit: int, p: Pointer, e: Entry)
    requires v.Ok() && Holds(v, p, e)
    requires forall i :: 0 <= i < |ops| && ops[i].GcOp? ==> ops[i].ts < e.ts
    ensures Holds(DoAll(v, ops, limit), p, e)
    decreases |ops|
  {
    if ops != [] {
      var v' := Do(v, ops[0], limit);
      match ops[0] {
        case WriteOp(es) =>
          HoldsWrite(v, es, limit, p, e);
          HoldsRotate(WriteAll(v, es, limit), limit, p, e);
        case GcOp(ts) =>
          MaxTsBounds(v.logs[p.fid]);
          assert e in v.logs[p.fid];
      }
      HoldsAfter(v', ops[1..], limit, p, e);
    }
  }

  /** Main result: a pointer assigned by a write leads to its own entry after any later writes,
      rotations and collections, as long as no collection reaches the entry's timestamp. */
  lemma PointerSurvives(v: Volume, es: seq<Entry>, limit: int, i: nat, ops: seq<Op>)
    requires v.Ok() && i < |es|
    requires forall j :: 0 <= j < |ops| && ops[j].GcOp? ==> ops[j].ts < es[i].ts
    ensures Holds(DoAll(Do(v, WriteOp(es), limit), ops, limit), PointersOf(v, es, limit)[i], es[i])
  {
    WriteHolds(v, es, limit, i);
    var p := PointersOf(v, es, limit)[i];
    HoldsRotate(WriteAll(v, es, limit), limit, p, es[i]);
    HoldsAfter(Do(v, WriteOp(es), limit), ops, limit, p, es[i]);
  }

  // ---------------------------------------------------------------- which files there are

  lemma {:induction false} MaxTsAbove(es: seq<Entry>, ts: int)
    ensures MaxTs(es) > ts <==> ts < 0 || exists e :: e in es && e.ts > ts
  {
    if es != [] {
      var init, last := es[..|es| - 1], es[|es| - 1];
      MaxTsAbove(init, ts);
      assert es == init + [last];
      assert last in es && forall e :: e in es <==> e in init || e == last;
    }
  }

  /** Exactly which files a collection leaves: the current one and those that hold an entry above the
      bound, or all of them if the bound is negative; and it does not change them. */
  lemma CollectExact(v: Volume, ts: int, fid: nat)
    requires v.Ok()
    ensures fid in Gc(v, ts).logs <==>
              fid in v.logs && (fid == v.maxFid || ts < 0 || exists e :: e in v.logs[fid] && e.ts > ts)
    ensures fid in Gc(v, ts).logs ==> Gc(v, ts).logs[fid] == v.logs[fid]
  {
    if fid in v.logs {
      MaxTsAbove(v.logs[fid], ts);
    }
  }

  /** The file is over the limit, but was not before its last entry. */
  ghost predicate JustFull(es: seq<Entry>, limit: int) {
    es != [] && Size(es) > limit && Size(es[..|es| - 1]) <= limit
  }

  /** The current file has room, and every other one was closed as soon as it was over the limit. */
  ghost predicate Packed(v: Volume, limit: int)
    requires v.Ok()
  {
    Size(v.logs[v.maxFid]) <= limit && forall fid :: fid in v.logs && fid != v.maxFid ==> JustFull(v.logs[fid], limit)
  }

  lemma PackedPut(v: Volume, e: Entry, limit: int)
    requires v.Ok() && 0 <= limit && Packed(v, limit)
    ensures Packed(RotateIf(Put(v, [e]), limit), limit)
  {
    var es := v.logs[v.maxFid];
    assert (es + [e])[..|es|] == es;
    assert Put(v, [e]).logs[v.maxFid] == es + [e];
  }

  lemma {:induction false} PackedWrite(v: Volume, es: seq<Entry>, limit: int)
    requires v.Ok() && 0 <= limit && Packed(v, limit)
    ensures Packed(WriteAll(v, es, limit), limit)
  {
    if es != [] {
      PackedWrite(v, es[..|es| - 1], limit);
      PackedPut(WriteAll(v, es[..|es| - 1], limit), es[|es| - 1], limit);
    }
  }

  /** After any writes and collections the current file is not over the limit, and every other file is over
      it by its last entry only. */
  lemma {:induction false} FilesPacked(v: Volume, ops: seq<Op>, limit: int)
    requires v.Ok() && 0 <= limit && Packed(v, limit)
    ensures Packed(DoAll(v, ops, limit), limit)
    decreases |ops|
  {
    if ops != [] {
      if ops[0].WriteOp? {
        PackedWrite(v, ops[0].es, limit);
      }
      FilesPacked(Do(v, ops[0], limit), ops[1..], limit);
    }
  }

  // ---------------------------------------------------------------- write order

  datatype Visit = Visit(at: Pointer, payload: seq<byte>)

  /** The visits of one file from entry `k` on. */
  function FileVisits(fid: nat, es: seq<Entry>, k: nat): seq<Visit>
    requires k <= |es|
  {
    seq(|es| - k, i requires 0 <= i < |es| - k => Visit(Pointer(fid, Size(es[..k + i])), es[k + i].payload))
  }

  /** The visits of the files `lo..hi`, in order of file ids. */
  function Visits(v: Volume, lo: nat, hi: nat): seq<Visit>
    decreases hi
  {
    if hi <= lo then []
    else Visits(v, lo, hi - 1) + (if hi - 1 in v.logs then FileVisits(hi - 1, v.logs[hi - 1], 0) else [])
  }

  /** All records of the volume. */
  function AllVisits(v: Volume): seq<Visit> {
    Visits(v, 0, v.maxFid + 1)
  }

  lemma {:induction false} VisitsSame(v: Volume, v': Volume, lo: nat, hi: nat)
    requires forall fid :: fid < hi ==> (fid in v.logs <==> fid in v'.logs) && (fid in v.logs ==> v.logs[fid] == v'.logs[fid])
    ensures Visits(v, lo, hi) == Visits(v', lo, hi)
    decreases hi
  {
    if lo < hi {
      VisitsSame(v, v', lo, hi - 1);
    }
  }

  lemma FileVisitsSnoc(fid: nat, es: seq<Entry>, e: Entry)
    ensures FileVisits(fid, es + [e], 0) == FileVisits(fid, es, 0) + [Visit(Pointer(fid, Size(es)), e.payload)]
  {
    var a, b := FileVisits(fid, es + [e], 0), FileVisits(fid, es, 0) + [Visit(Pointer(fid, Size(es)), e.payload)];
    assert (es + [e])[..|es|] == es;
    forall i | 0 <= i < |a| ensures a[i] == b[i] {
      if i < |es| {
        assert (es + [e])[..0 + i] == es[..0 + i];
      }
    }
  }

  lemma PutVisits(v: Volume, e: Entry)
    requires v.Ok()
    ensures AllVisits(Put(v, [e])) == AllVisits(v) + [Visit(NextPointer(v), e.payload)]
  {
    VisitsSame(v, Put(v, [e]), 0, v.maxFid);
    FileVisitsSnoc(v.maxFid, v.logs[v.maxFid], e);
  }

  lemma RotateVisits(v: Volume, limit: int)
    requires v.Ok()
    ensures AllVisits(RotateIf(v, limit)) == AllVisits(v)
  {
    var v' := RotateIf(v, limit);
    if v' != v {
      VisitsSame(v, v', 0, v.maxFid + 1);
    }
  }

  /** The records of a write, under the pointers it assigns. */
  function NewVisits(ps: seq<Pointer>, es: seq<Entry>): seq<Visit>
    requires |ps| == |es|
  {
    if es == [] then []
    else NewVisits(ps[..|es| - 1], es[..|es| - 1]) + [Visit(ps[|es| - 1], es[|es| - 1].payload)]
  }

  /** Write order is file order: a write adds its records, under the pointers it assigns, at
      the end of the listing of all records. */
  lemma {:induction false} WriteOrder(v: Volume, es: seq<Entry>, limit: int)
    requires v.Ok()
    ensures AllVisits(Do(v, WriteOp(es), limit)) == AllVisits(v) + NewVisits(PointersOf(v, es, limit), es)
  {
    WriteOrderAll(v, es, limit);
    RotateVisits(WriteAll(v, es, limit), limit);
  }

  lemma {:induction false} WriteOrderAll(v: Volume, es: seq<Entry>, limit: int)
    requires v.Ok()
    ensures AllVisits(WriteAll(v, es, limit)) == AllVisits(v) + NewVisits(PointersOf(v, es, limit), es)
  {
    if es != [] {
      var init, last := es[..|es| - 1], es[|es| - 1];
      var w := WriteAll(v, init, limit);
      WriteOrderAll(v, init, limit);
      PutVisits(w, last);
      RotateVisits(Put(w, [last]), limit);
      assert PointersOf(v, es, limit)[..|init|] == PointersOf(v, init, limit);
    }
  }

  // ---------------------------------------------------------------- the object

  datatype LogFile = LogFile(data: seq<byte>, writeOffset: nat, maxTS: int, end: bool)

  ghost predicate FileOk(lay: Layout, f: LogFile, es: seq<Entry>, current: bool) {
    && AllFit(es) && f.maxTS == MaxTs(es) && f.writeOffset == Size(es) && f.end == !current
    && |f.data| == Size(es) + (if current then 0 else FOOTER_LENGTH)
    && f.data[..Size(es)] == Bytes(lay, es)
  }

  /** The footer after the records: the largest timestamp, and the mark of a finished file. */
  ghost predicate HasFooter(d: seq<byte>, size: nat, maxTS: int)
  {
    size + FOOTER_LENGTH == |d| && U64(d, size) == maxTS && U32(d, size + 8) == FILE_END_MAGIC
  }

  method Finalize(f: LogFile) returns (g: LogFile)
    requires 0 <= f.maxTS < MAX_INT64
    ensures |g.data| == |f.data| + FOOTER_LENGTH && g.data[..|f.data|] == f.data
    ensures HasFooter(g.data, |f.data|, f.maxTS)
    ensures g == f.(data := g.data, end := true)
  {
    var a, b := Digits(f.maxTS, 8), Digits(FILE_END_MAGIC, 4);
    var d, n := f.data + a + b, |f.data|;
    Bounds();
    DigitsValue(f.maxTS, 8);
    DigitsValue(FILE_END_MAGIC, 4);
    assert d[n..n + 8] == a && d[n + 8..n + 8 + 4] == b;
    g := f.(data := d, end := true);
  }

  /** A finalized file and a new one are as they should be. */
  lemma FinalOk(lay: Layout, f: LogFile, g: LogFile, es: seq<Entry>)
    requires FileOk(lay, f, es, true)
    requires |g.data| == |f.data| + FOOTER_LENGTH && g.data[..|f.data|] == f.data && g == f.(data := g.data, end := true)
    ensures FileOk(lay, g, es, false) && FileOk(lay, LogFile([], 0, 0, false), [], true)
  {
    assert f.data[..Size(es)] == f.data;
  }

  lemma AppendOk(lay: Layout, f: LogFile, es: seq<Entry>, pending: seq<Entry>, buf: seq<byte>, maxTS: int)
    requires FileOk(lay, f, es, true) && AllFit(pending) && buf == Bytes(lay, pending) && |buf| == Size(pending)
    requires maxTS == MaxTs(es + pending)
    ensures FileOk(lay, LogFile(f.data + buf, f.writeOffset + |buf|, maxTS, false), es + pending, true)
  {
    BytesAppend(lay, es, pending);
    SizeAppend(es, pending);
    assert f.data[..Size(es)] == f.data;
  }

  lemma PutPut(v: Volume, xs: seq<Entry>, ys: seq<Entry>)
    requires v.Ok()
    ensures Put(v, []) == v && Put(v, xs).Ok() && Put(Put(v, xs), ys) == Put(v, xs + ys)
  {
    assert v.logs[v.maxFid] + [] == v.logs[v.maxFid];
    assert v.logs[v.maxFid] + xs + ys == v.logs[v.maxFid] + (xs + ys);
  }

  /** The records of a file end where its footer begins. */
  function DataSize(f: LogFile): int {
    if f.end then |f.data| - FOOTER_LENGTH else |f.data|
  }

  function AsVisits(fid: nat, hits: seq<Hit>): seq<Visit> {
    seq(|hits|, i requires 0 <= i < |hits| => Visit(Pointer(fid, hits[i].off), hits[i].payload))
  }

  /** What a scan of a file from any offset delivers, inside a record or between records. */
  ghost function RawVisits(crc: seq<byte> -> u32, fid: nat, f: LogFile, off: nat): seq<Visit>
    requires 0 <= DataSize(f) <= |f.data|
  {
    AsVisits(fid, Greedy(FileReader(crc, f.data, DataSize(f)), DataSize(f), off))
  }

  lemma LaidVisits(read: Reader, fid: nat, es: seq<Entry>, k: nat)
    requires Laid(read, es) && k <= |es|
    ensures AsVisits(fid, Greedy(read, Size(es), Size(es[..k]))) == FileVisits(fid, es, k)
  {
    ScanDelivers(read, es, k);
    HitVisits(fid, es, k);
  }

  lemma HitVisits(fid: nat, es: seq<Entry>, k: nat)
    requires k <= |es|
    ensures AsVisits(fid, Hits(es, k)) == FileVisits(fid, es, k)
  {
  }

  /** From the offset of an entry these are the visits of that entry and the later ones. */
  lemma RawAtEntry(crc: seq<byte> -> u32, lay: Layout, fid: nat, f: LogFile, es: seq<Entry>, current: bool, k: nat)
    requires Sized(lay) && Records(crc, lay) && FileOk(lay, f, es, current) && k <= |es|
    ensures 0 <= DataSize(f) <= |f.data| && RawVisits(crc, fid, f, Size(es[..k])) == FileVisits(fid, es, k)
  {
    FileLaid(crc, lay, es, f.data[Size(es)..]);
    assert f.data == Bytes(lay, es) + f.data[Size(es)..];
    LaidVisits(FileReader(crc, f.data, Size(es)), fid, es, k);
  }

  /** What a scan from a pointer visits: the rest of its file and all later files. */
  ghost function ScanSpec(v: Volume, start: Pointer, k: nat): seq<Visit>
    requires start.fid in v.logs ==> k <= |v.logs[start.fid]|
  {
    (if start.fid in v.logs then FileVisits(start.fid, v.logs[start.fid], k) else [])
    + Visits(v, start.fid + 1, v.maxFid + 1)
  }

  /** `updateMaxTS` for every written request. */
  method MaxWith(maxTS: int, pending: seq<Entry>, ghost es: seq<Entry>) returns (m: int)
    requires maxTS == MaxTs(es)
    ensures m == MaxTs(es + pending)
  {
    m := maxTS;
    assert es + pending[..0] == es;
    for i := 0 to |pending|
      invariant m == MaxTs(es + pending[..i])
    {
      assert (es + pending[..i + 1])[..|es| + i] == es + pending[..i];
      if pending[i].ts > m {
        m := pending[i].ts;
      }
    }
    assert pending[..|pending|] == pending;
  }

  lemma {:induction false} VisitsSplit(v: Volume, mid: nat, hi: nat)
    requires mid < hi
    ensures Visits(v, 0, hi) == Visits(v, 0, mid) + (if mid in v.logs then FileVisits(mid, v.logs[mid], 0) else []) + Visits(v, mid + 1, hi)
    decreases hi
  {
    if mid + 1 < hi {
      VisitsSplit(v, mid, hi - 1);
    }
  }

  /** A scan from an assigned pointer visits exactly the records at or after it in write order:
      the listing of all records is what lies before the pointer, followed by the scan. */
  lemma ScanIsSuffix(v: Volume, start: Pointer, k: nat)
    requires v.Ok() && start.fid in v.logs && StartsAt(v.logs[start.fid], start.off, k)
    ensures exists before :: AllVisits(v) == before + ScanSpec(v, start, k)
                             && |before| == |Visits(v, 0, start.fid)| + k
                             && forall b :: b in before ==> b.at.Less(start)
  {
    var es := v.logs[start.fid];
    var before := Visits(v, 0, start.fid) + FileVisits(start.fid, es, 0)[..k];
    SplitAt(v, start, k);
    VisitsBelow(v, 0, start.fid);
    forall i | 0 <= i < k ensures FileVisits(start.fid, es, 0)[i].at.Less(start) {
      SizeMonotone(es, i, k);
    }
    assert AllVisits(v) == before + ScanSpec(v, start, k);
  }

  lemma SplitAt(v: Volume, start: Pointer, k: nat)
    requires v.Ok() && start.fid in v.logs && k <= |v.logs[start.fid]|
    ensures AllVisits(v) == Visits(v, 0, start.fid) + FileVisits(start.fid, v.logs[start.fid], 0)[..k] + ScanSpec(v, start, k)
  {
    var es := v.logs[start.fid];
    VisitsSplit(v, start.fid, v.maxFid + 1);
    var all, first, rest := FileVisits(start.fid, es, 0), FileVisits(start.fid, es, 0)[..k], FileVisits(start.fid, es, k);
    assert all == first + rest;
  }

  lemma {:induction false} VisitsBelow(v: Volume, lo: nat, hi: nat)
    ensures forall b :: b in Visits(v, lo, hi) ==> b.at.fid < hi
    decreases hi
  {
    if lo < hi {
      VisitsBelow(v, lo, hi - 1);
    }
  }

  lemma {:induction false} SizeMonotone(es: seq<Entry>, i: nat, k: nat)
    requires i < k <= |es|
    ensures Size(es[..i]) < Size(es[..k])
    decreases k - i
  {
    SizeAt(es, i);
    if i + 1 < k {
      SizeMonotone(es, i + 1, k);
    }
  }

  /** `recover`: the largest timestamp of an unfinalised file, found by scanning it.  It bounds
      every entry, so the file is not collected too early. */
  method Recover(crc: seq<byte> -> u32, d: seq<byte>, stamps: seq<byte> -> (int, int)) returns (maxTS: int)
    ensures 0 <= maxTS
    ensures forall h :: h in Greedy(FileReader(crc, d, |d|), |d|, 0) ==> stamps(h.payload).0 <= maxTS && stamps(h.payload).1 <= maxTS
    ensures maxTS == 0 || exists h :: h in Greedy(FileReader(crc, d, |d|), |d|, 0) && (maxTS == stamps(h.payload).0 || maxTS == stamps(h.payload).1)
  {
    var hits := ScanFile(crc, d, |d|, 0);
    maxTS := 0;
    for i := 0 to |hits|
      invariant 0 <= maxTS
      invariant forall j :: 0 <= j < i ==> stamps(hits[j].payload).0 <= maxTS && stamps(hits[j].payload).1 <= maxTS
      invariant maxTS == 0 || exists h :: h in hits && (maxTS == stamps(h.payload).0 || maxTS == stamps(h.payload).1)
    {
      var (start, commit) := stamps(hits[i].payload);
      assert hits[i] in hits;
      if commit > maxTS {
        maxTS := commit;
      }
      if start > maxTS {
        maxTS := start;
      }
    }
  }

  /** The pointer is that of the `k`-th entry of its file, or its file is gone. */
  ghost predicate ScansFrom(v: Volume, start: Pointer, k: nat) {
    start.fid in v.logs ==> k <= |v.logs[start.fid]| && start.off == Size(v.logs[start.fid][..k])
  }

  class ValueLog {
    const crc: seq<byte> -> u32
    const limit: int
    const lay: Layout
    var files: map<nat, LogFile>
    var maxFid: nat
    ghost var vol: Volume

    /** Only the file with the highest id is open; every other one has a footer. */
    ghost predicate Valid()
      reads this
    {
      && Sized(lay) && Records(crc, lay)
      && vol.Ok() && vol.maxFid == maxFid && files.Keys == vol.logs.Keys
      && forall fid :: fid in files ==> FileOk(lay, files[fid], vol.logs[fid], fid == maxFid)
    }

    constructor (crc: seq<byte> -> u32, limit: int)
      ensures Valid() && vol == Volume(map[0 := []], 0) && this.limit == limit && this.crc == crc
    {
      this.crc, this.limit := crc, limit;
      lay := (e: Entry) => if e.Fits() then Encode(crc, e.payload) else [];
      files, maxFid, vol := map[0 := LogFile([], 0, 0, false)], 0, Volume(map[0 := []], 0);
    }

    /** The buffer goes to the current file. */
    method Flush(buf: seq<byte>, pending: seq<Entry>)
      requires Valid() && Buffered(buf, pending)
      modifies this
      ensures Valid() && vol == Put(old(vol), pending)
    {
      var cur := files[maxFid];
      ghost var es := vol.logs[maxFid];
      var maxTS := MaxWith(cur.maxTS, pending, es);
      AppendOk(lay, cur, es, pending, buf, maxTS);
      files := files[maxFid := LogFile(cur.data + buf, cur.writeOffset + |buf|, maxTS, false)];
      vol := Put(vol, pending);
    }

    method ToDisk(buf: seq<byte>, pending: seq<Entry>)
      requires Valid() && Buffered(buf, pending)
      modifies this
      ensures Valid() && vol == RotateIf(Put(old(vol), pending), limit)
    {
      Flush(buf, pending);
      assert FileOk(lay, files[maxFid], vol.logs[maxFid], true);
      if files[maxFid].writeOffset > limit {
        Rotate();
      }
    }

    method Rotate()
      requires Valid()
      modifies this
      ensures Valid() && vol == Volume(old(vol).logs[old(maxFid) + 1 := []], old(maxFid) + 1)
      ensures HasFooter(files[old(maxFid)].data, old(files)[old(maxFid)].writeOffset, files[old(maxFid)].maxTS)
    {
      MaxTsBounds(vol.logs[maxFid]);
      MaxTsFits(vol.logs[maxFid]);
      var done := Finalize(files[maxFid]);
      FinalOk(lay, files[maxFid], done, vol.logs[maxFid]);
      files := files[maxFid := done];
      files := files[maxFid + 1 := LogFile([], 0, 0, false)];
      vol := Volume(vol.logs[maxFid + 1 := []], maxFid + 1);
      maxFid := maxFid + 1;
    }

    /** What the buffer holds: the bytes of the pending entries. */
    ghost predicate Buffered(buf: seq<byte>, pending: seq<Entry>) {
      AllFit(pending) && buf == Bytes(lay, pending) && |buf| == Size(pending)
    }

    /** One request of a write: it goes to the buffer, and the buffer goes to disk when the file
        would get over the limit. */
    method Buffer(req: Entry, buf: seq<byte>, pending: seq<Entry>) returns (buf': seq<byte>, pending': seq<Entry>, p: Pointer)
      requires Valid() && Buffered(buf, pending) && req.Fits()
      modifies this
      ensures Valid() && Buffered(buf', pending')
      ensures Put(old(vol), pending).Ok()
      ensures Put(vol, pending') == RotateIf(Put(Put(old(vol), pending), [req]), limit)
      ensures p == NextPointer(Put(old(vol), pending))
    {
      assert FileOk(lay, files[maxFid], vol.logs[maxFid], true);
      SizeAppend(vol.logs[maxFid], pending);
      SizeAppend(vol.logs[maxFid], pending + [req]);
      PutPut(vol, pending, [req]);
      p := Pointer(maxFid, files[maxFid].writeOffset + |buf|);
      var record := EncodeRecord(req);
      assert (pending + [req])[..|pending|] == pending;
      buf', pending' := buf + record, pending + [req];
      if files[maxFid].writeOffset + |buf'| > limit {
        ToDisk(buf', pending');
        buf', pending' := [], [];
        PutPut(vol, [], []);
      }
    }

    /** Buffered writing.  Volume and pointers are those of writing entry by entry. */
    method Write(reqs: seq<Entry>) returns (ptrs: seq<Pointer>)
      requires Valid() && AllFit(reqs)
      modifies this
      ensures Valid() && vol == Do(old(vol), WriteOp(reqs), limit)
      ensures ptrs == PointersOf(old(vol), reqs, limit)
    {
      var buf: seq<byte>, pending: seq<Entry> := [], [];
      ptrs := [];
      PutPut(vol, [], []);
      for i := 0 to |reqs|
        invariant Valid() && Buffered(buf, pending)
        invariant Put(vol, pending) == WriteAll(old(vol), reqs[..i], limit)
        invariant ptrs == PointersOf(old(vol), reqs[..i], limit)
      {
        assert reqs[..i + 1][..i] == reqs[..i];
        var p;
        buf, pending, p := Buffer(reqs[i], buf, pending);
        ptrs := ptrs + [p];
      }
      assert reqs[..|reqs|] == reqs;
      ToDisk(buf, pending);
    }

    method EncodeRecord(req: Entry) returns (d: seq<byte>)
      requires Valid() && req.Fits()
      ensures d == lay(req) && |d| == req.Len()
    {
      d := Encode(crc, req.payload);
    }

    /** Reading through a pointer. */
    method ReadValue(p: Pointer) returns (r: Option<seq<byte>>)
      requires Valid()
      ensures forall e :: Holds(vol, p, e) ==> r == Some(e.payload)
      ensures p.fid !in vol.logs ==> r.None?
    {
      if p.fid !in files {
        return None;
      }
      var f := files[p.fid];
      r := RecordAt(crc, f.data, |f.data|, p.off);
      forall e | Holds(vol, p, e) ensures r == Some(e.payload) {
        var es := vol.logs[p.fid];
        var k: nat :| StartsAt(es, p.off, k) && es[k] == e;
        assert f.data == Bytes(lay, es) + f.data[Size(es)..];
        EntryReads(crc, lay, es, f.data[Size(es)..], k, |f.data|);
      }
    }

    /** One file of a scan. */
    method ScanOne(fid: nat, off: nat) returns (visits: seq<Visit>)
      requires fid in files && 0 <= DataSize(files[fid]) <= |files[fid].data|
      ensures visits == RawVisits(crc, fid, files[fid], off)
    {
      var f := files[fid];
      var hits := ScanFile(crc, f.data, DataSize(f), off);
      visits := AsVisits(fid, hits);
    }

    /** The whole files from `lo` on. */
    method ScanFiles(lo: nat) returns (visits: seq<Visit>)
      requires Valid()
      ensures visits == Visits(vol, lo, maxFid + 1)
    {
      visits := [];
      var fid := lo;
      while fid <= maxFid
        invariant lo <= fid
        invariant if lo <= maxFid then fid <= maxFid + 1 else fid == lo
        invariant visits == Visits(vol, lo, fid)
      {
        if fid in files {
          assert vol.logs[fid][..0] == [];
          RawAtEntry(crc, lay, fid, files[fid], vol.logs[fid], fid == maxFid, 0);
          var more := ScanOne(fid, 0);
          visits := visits + more;
        }
        fid := fid + 1;
      }
      if lo <= maxFid {
        assert fid == maxFid + 1;
      } else {
        assert visits == [];
      }
    }

    /** Scanning from any pointer: what can be read from there on in its file, and all later files.
        From the pointer of an entry this is that entry and every later one. */
    method Scan(start: Pointer) returns (visits: seq<Visit>)
      requires Valid()
      ensures forall fid :: fid in files ==> 0 <= DataSize(files[fid]) <= |files[fid].data|
      ensures visits == (if start.fid in files then RawVisits(crc, start.fid, files[start.fid], start.off) else [])
                        + Visits(vol, start.fid + 1, maxFid + 1)
      ensures forall k :: ScansFrom(vol, start, k) ==> visits == ScanSpec(vol, start, k)
    {
      visits := [];
      if start.fid in files {
        assert FileOk(lay, files[start.fid], vol.logs[start.fid], start.fid == maxFid);
        visits := ScanOne(start.fid, start.off);
        forall k | ScansFrom(vol, start, k) ensures visits == FileVisits(start.fid, vol.logs[start.fid], k) {
          RawAtEntry(crc, lay, start.fid, files[start.fid], vol.logs[start.fid], start.fid == maxFid, k);
        }
      }
      var rest := ScanFiles(start.fid + 1);
      visits := visits + rest;
      assert forall fid :: fid in files ==> FileOk(lay, files[fid], vol.logs[fid], fid == maxFid);
    }

    /** Removes the closed files whose records are all at or below the bound. */
    method GcTS(ts: int)
      requires Valid()
      modifies this
      ensures Valid() && vol == Gc(old(vol), ts)
    {
      var dead: set<nat> := {};
      for fid := 0 to maxFid + 1
        invariant dead == set x | x in files && x < fid && x != maxFid && files[x].maxTS <= ts
      {
        if fid in files && fid != maxFid && files[fid].maxTS <= ts {
          dead := dead + {fid};
        }
      }
      files := files - dead;
      vol := Gc(vol, ts);
    }
  }
}
