/** Garbage collection of a pump: index keys and their order, the batched deletion of index
    entries, and what is safe to delete. */
module PumpGC {
  import opened Collections
  import opened LittleEndian
  import opened RecordLog
  import opened ValueLog
  import PumpProtocol

  // ---------------------------------------------------------------- keys

  /** "ts:" */
  const TS_KEY_PREFIX: seq<byte> := [116, 115, 58]
  const TWO64 := 0x1_0000_0000_0000_0000

  type int64 = x: int | -0x8000_0000_0000_0000 <= x < 0x8000_0000_0000_0000

  /** The conversion of a timestamp to an unsigned number. */
  function Unsigned(ts: int64): (n: nat)
    ensures n < TWO64
  {
    if 0 <= ts then ts else ts + TWO64
  }

  function Signed(n: nat): int64
    requires n < TWO64
  {
    if n < MAX_INT64 then n else n - TWO64
  }

  function BigEndian(n: nat, width: nat): (d: seq<byte>)
    ensures |d| == width
  {
    if width == 0 then [] else BigEndian(n / 0x100, width - 1) + [n % 0x100]
  }

  function BigValue(d: seq<byte>): nat {
    if d == [] then 0 else 0x100 * BigValue(d[..|d| - 1]) + d[|d| - 1] as int
  }

  function TsKey(ts: int64): (key: seq<byte>)
    ensures |key| == 11
  {
    TS_KEY_PREFIX + BigEndian(Unsigned(ts), 8)
  }

  /** The order of the key-value store. */
  predicate LexLess(a: seq<byte>, b: seq<byte>) {
    if b == [] then false
    else if a == [] then true
    else a[0] < b[0] || (a[0] == b[0] && LexLess(a[1..], b[1..]))
  }

  lemma {:induction false} LexSnoc(a: seq<byte>, b: seq<byte>, x: byte, y: byte)
    requires |a| == |b|
    ensures LexLess(a + [x], b + [y]) <==> LexLess(a, b) || (a == b && x < y)
  {
    if a == [] {
      assert a + [x] == [x] && b + [y] == [y];
    } else {
      assert (a + [x])[1..] == a[1..] + [x] && (b + [y])[1..] == b[1..] + [y];
      assert a == [a[0]] + a[1..] && b == [b[0]] + b[1..];
      LexSnoc(a[1..], b[1..], x, y);
    }
  }

  lemma {:induction false} LexPrefix(p: seq<byte>, a: seq<byte>, b: seq<byte>)
    ensures LexLess(p + a, p + b) <==> LexLess(a, b)
  {
    if p == [] {
      assert p + a == a && p + b == b;
    } else {
      assert (p + a)[1..] == p[1..] + a && (p + b)[1..] == p[1..] + b;
      LexPrefix(p[1..], a, b);
    }
  }

  lemma {:induction false} BigEndianOrder(n: nat, m: nat, width: nat)
    requires n < Bound(width) && m < Bound(width)
    ensures LexLess(BigEndian(n, width), BigEndian(m, width)) <==> n < m
    ensures BigEndian(n, width) == BigEndian(m, width) <==> n == m
  {
    if width > 0 {
      var a, b := BigEndian(n / 0x100, width - 1), BigEndian(m / 0x100, width - 1);
      BigEndianOrder(n / 0x100, m / 0x100, width - 1);
      LexSnoc(a, b, n % 0x100, m % 0x100);
      assert (a + [n % 0x100])[..width - 1] == a && (b + [m % 0x100])[..width - 1] == b;
    }
  }

  lemma {:induction false} BigEndianValue(n: nat, width: nat)
    requires n < Bound(width)
    ensures BigValue(BigEndian(n, width)) == n
  {
    if width > 0 {
      BigEndianValue(n / 0x100, width - 1);
      assert BigEndian(n, width)[..width - 1] == BigEndian(n / 0x100, width - 1);
    }
  }

  /** Keys are ordered as the unsigned numbers, hence as the timestamps when neither is
      negative. */
  lemma KeyOrder(a: int64, b: int64)
    ensures LexLess(TsKey(a), TsKey(b)) <==> Unsigned(a) < Unsigned(b)
    ensures 0 <= a && 0 <= b ==> (LexLess(TsKey(a), TsKey(b)) <==> a < b)
  {
    Bounds();
    LexPrefix(TS_KEY_PREFIX, BigEndian(Unsigned(a), 8), BigEndian(Unsigned(b), 8));
    BigEndianOrder(Unsigned(a), Unsigned(b), 8);
  }

  function DecodeKey(key: seq<byte>): int64
    requires |key| >= 11
    requires BigValue(key[3..11]) < TWO64
  {
    Signed(BigValue(key[3..11]))
  }

  /** Round trip, for negative timestamps too. */
  lemma KeyRoundTrip(ts: int64)
    ensures BigValue(TsKey(ts)[3..11]) < TWO64 && DecodeKey(TsKey(ts)) == ts
  {
    Bounds();
    BigEndianValue(Unsigned(ts), 8);
    assert TsKey(ts)[3..11] == BigEndian(Unsigned(ts), 8);
  }

  /** `encodeTSKey` fills a buffer in place. */
  method EncodeTSKey(ts: int64) returns (buf: array<byte>)
    ensures fresh(buf) && buf[..] == TsKey(ts)
  {
    buf := new byte[11](_ => 0);
    for i := 0 to 3
      invariant buf[..i] == TS_KEY_PREFIX[..i]
    {
      buf[i] := TS_KEY_PREFIX[i];
    }
    var rest, pos := Unsigned(ts), 11;
    assert buf[11..] == [];
    while pos > 3
      invariant 3 <= pos <= 11 && buf[..3] == TS_KEY_PREFIX
      invariant BigEndian(rest, pos - 3) + buf[pos..] == BigEndian(Unsigned(ts), 8)
    {
      pos := pos - 1;
      buf[pos] := rest % 0x100;
      assert buf[pos..] == [rest % 0x100] + buf[pos + 1..];
      assert BigEndian(rest, pos - 2) + buf[pos + 1..] == BigEndian(rest / 0x100, pos - 3) + buf[pos..];
      rest := rest / 0x100;
    }
    assert buf[..] == buf[..3] + buf[3..];
  }

  // ---------------------------------------------------------------- deletion from the index

  /** The index by unsigned timestamp; by `KeyOrder` this is the order of the store. */
  type Index = map<nat, Pointer>

  /** What deleting the range `[key(0), key(ts + 1))` leaves. */
  function GcIndex(index: Index, ts: int64): Index {
    map k | k in index && Limit(ts) <= k :: index[k]
  }

  /** The end of the deleted range: `ts + 1` wraps around, and is then taken as unsigned. */
  function Limit(ts: int64): nat {
    if -1 <= ts then ts + 1 else ts + 1 + TWO64
  }

  class Metadata {
    var index: Index

    constructor (index: Index)
      ensures this.index == index
    {
      this.index := index;
    }

    /** The inner loop of `doGCTS`: at most 100 batches of 1024 deletions from the iterator. */
    method DeleteSome(todo: set<int>) returns (left: set<int>, lastKey: Option<int>, full: bool)
      requires forall k :: k in todo ==> 0 <= k && k in index
      modifies this
      ensures left <= todo && index == old(index) - (todo - left)
      ensures !full ==> left == {}
      ensures full ==> left < todo
      ensures lastKey.Some? ==> forall k :: k in left ==> lastKey.value <= k
      ensures lastKey.None? ==> left == todo
    {
      var batch: set<int> := {};
      var batches := 0;
      left, lastKey := todo, None;
      while batches < 100 && left != {}
        invariant left <= todo && batch <= todo - left
        invariant index == old(index) - (todo - left - batch)
        invariant batches > 0 ==> left < todo
        invariant lastKey.Some? ==> forall k :: k in left ==> lastKey.value <= k
        invariant lastKey.None? ==> left == todo
        invariant batches == 100 ==> batch == {}
        decreases left
      {
        var key := Least(left);
        batch := batch + {key};
        left := left - {key};
        lastKey := Some(key);
        if |batch| == 1024 {
          index := index - batch;
          batch := {};
          batches := batches + 1;
        }
      }
      full := batches == 100;
      if !full {
        index := index - batch;
      }
    }

    /** `doGCTS` on the index.  Each entry of `busy` says whether the store has too many level-0
        files at that turn; the iterator is then dropped and made anew from the last key. */
    method DoGCTS(ts: int64, busy: seq<bool>)
      modifies this
      ensures index == GcIndex(old(index), ts)
    {
      var start, limit := 0, Limit(ts);
      var iter: Option<set<int>> := None;
      var turn := 0;
      ghost var left: set<int> := set k | k in index && 0 <= k < limit;
      ghost var range_ := left;
      while true
        invariant left <= range_ && range_ == set k | k in old(index) && 0 <= k < limit
        invariant index == old(index) - (range_ - left)
        invariant iter.Some? ==> iter.value == left
        invariant 0 <= turn
        invariant forall k :: k in left ==> start <= k
        decreases left, |busy| - turn
      {
        if turn < |busy| && busy[turn] {
          iter := None;
          turn := turn + 1;
          continue;
        }
        turn := turn + 1;
        if iter.None? {
          iter := Some(set k | k in index && start <= k < limit);
          assert iter.value == left;
        }
        var rest, lastKey, full := DeleteSome(iter.value);
        left := rest;
        iter := Some(rest);
        if !full {
          break;
        }
        if lastKey.Some? {
          start := lastKey.value;
        }
      }
      assert index == GcIndex(old(index), ts);
    }
  }

  // ---------------------------------------------------------------- what is kept

  /** All keys come from timestamps that are not negative. */
  predicate KeysOk(index: Index) {
    forall k :: k in index ==> k < MAX_INT64
  }

  /** Deleting up to `ts` removes exactly the entries at or below `ts` if and only if `ts` is at
      least -1 or there is nothing to remove; for smaller bounds the range wraps around and
      everything goes. */
  lemma GcExact(index: Index, ts: int64)
    requires KeysOk(index)
    ensures (forall k :: k in GcIndex(index, ts) <==> k in index && ts < k) <==> (-1 <= ts || index == map[])
  {
    if ts < -1 {
      assert GcIndex(index, ts) == map[];
      if index != map[] {
        var k :| k in index;
        assert k !in GcIndex(index, ts);
      }
    }
  }

  lemma GcWipes()
    ensures var index: Index := map[5 := Pointer(0, 0)]; GcIndex(index, -2) == map[] && 5 in index
  {
  }

  /** The index leads into the value log: every entry holds a record of its own timestamp. */
  ghost predicate Consistent(v: Volume, index: Index) {
    forall k :: k in index ==> exists e :: Holds(v, index[k], e) && e.ts == k
  }

  /** Main result: collecting both the files and the index to the same bound leaves no entry
      that points at a deleted file, and keeps every entry above the bound. */
  lemma GcConsistent(v: Volume, index: Index, bound: int64)
    requires v.Ok() && Consistent(v, index) && KeysOk(index) && -1 <= bound
    ensures Consistent(Gc(v, bound), GcIndex(index, bound))
    ensures forall k :: k in index && bound < k ==> k in GcIndex(index, bound) && GcIndex(index, bound)[k] == index[k]
  {
    forall k | k in GcIndex(index, bound) ensures exists e :: Holds(Gc(v, bound), index[k], e) && e.ts == k {
      var e :| Holds(v, index[k], e) && e.ts == k;
      HoldsAfter(v, [GcOp(bound)], 0, index[k], e);
      assert DoAll(v, [GcOp(bound)], 0) == Gc(v, bound) by {
        assert [GcOp(bound)][1..] == [];
      }
    }
  }

  const TXN_WINDOW := PumpProtocol.TXN_WINDOW

  /** The wall-clock part of a timestamp, in milliseconds. */
  function Physical(ts: int): int {
    ts / 0x4_0000
  }

  /** A collection to `gcTS` deletes up to `gcTS` minus the window.  The P binlog of every
      transaction that commits after `gcTS` and lasted less than 600 seconds stays readable. */
  lemma PrewriteKept(v: Volume, index: Index, gcTS: int64, start: nat, commit: int)
    requires v.Ok() && Consistent(v, index) && KeysOk(index)
    requires TXN_WINDOW <= gcTS < commit && start in index
    requires Physical(commit) - Physical(start) < 600 * 1000
    ensures start in GcIndex(index, gcTS - TXN_WINDOW)
    ensures exists e :: Holds(Gc(v, gcTS - TXN_WINDOW), index[start], e) && e.ts == start
  {
    assert commit - start < TXN_WINDOW by {
      var c, s := Physical(commit), Physical(start);
      assert commit < 0x4_0000 * c + 0x4_0000 && 0x4_0000 * s <= start;
    }
    GcConsistent(v, index, gcTS - TXN_WINDOW);
  }
}
