/** Filtering the row events of a table mutation in place: the sequence of event types and the
    rows of each type are compacted in four arrays while they are read. */
module RowFilter {
  import opened Collections

  datatype Type = Insert | Update | DeleteRow | Unknown(code: int)

  datatype Row = Row(bytes: string)

  datatype Event = Event(tp: Type, row: Row)

  // ---------------------------------------------------------------- what a mutation means

  /** The rows of each type, in order. */
  datatype Rows = Rows(inserted: seq<Row>, updated: seq<Row>, deleted: seq<Row>)

  function RowsFor(r: Rows, tp: Type): seq<Row> {
    match tp
    case Insert => r.inserted
    case Update => r.updated
    case DeleteRow => r.deleted
    case Unknown(_) => []
  }

  function Count(types: seq<Type>, tp: Type): nat {
    if types == [] then 0
    else Count(types[..|types| - 1], tp) + if types[|types| - 1] == tp then 1 else 0
  }

  ghost predicate AllKnown(types: seq<Type>) {
    forall i :: 0 <= i < |types| ==> !types[i].Unknown?
  }

  /** There is a row for every event of a known type. */
  ghost predicate Enough(types: seq<Type>, r: Rows) {
    Count(types, Insert) <= |r.inserted| && Count(types, Update) <= |r.updated| && Count(types, DeleteRow) <= |r.deleted|
  }

  lemma {:induction false} CountPrefix(types: seq<Type>, tp: Type, i: nat)
    requires i < |types|
    ensures Count(types[..i], tp) + (if types[i] == tp then 1 else 0) <= Count(types, tp)
  {
    if i == |types| - 1 {
      assert types[..i] == types[..|types| - 1];
    } else {
      assert types[..|types| - 1][..i] == types[..i];
      CountPrefix(types[..|types| - 1], tp, i);
    }
  }

  lemma CountNext(types: seq<Type>, tp: Type, i: nat)
    requires i < |types|
    ensures Count(types[..i + 1], tp) == Count(types[..i], tp) + if types[i] == tp then 1 else 0
  {
    assert types[..i + 1][..i] == types[..i];
  }

  /** The event at a place in the sequence takes the next row of its type. */
  function EventAt(types: seq<Type>, r: Rows, i: nat): Event
    requires i < |types|
  {
    var k := Count(types[..i], types[i]);
    Event(types[i], if k < |RowsFor(r, types[i])| then RowsFor(r, types[i])[k] else Row(""))
  }

  /** The events of a mutation. */
  function Meaning(types: seq<Type>, r: Rows): (es: seq<Event>)
    ensures |es| == |types| && forall i :: 0 <= i < |types| ==> es[i] == EventAt(types, r, i)
  {
    seq(|types|, i requires 0 <= i < |types| => EventAt(types, r, i))
  }

  lemma RowThere(types: seq<Type>, r: Rows, i: nat)
    requires Enough(types, r) && i < |types| && !types[i].Unknown?
    ensures Count(types[..i], types[i]) < |RowsFor(r, types[i])|
  {
    CountPrefix(types, types[i], i);
  }

  /** The events whose type is not skipped. */
  function Kept(es: seq<Event>, skip: Type -> bool): seq<Event> {
    if es == [] then []
    else Kept(es[..|es| - 1], skip) + if skip(es[|es| - 1].tp) then [] else [es[|es| - 1]]
  }

  lemma Regroup(x: seq<Event>, y: seq<Event>, z: seq<Event>)
    ensures x + y + z == x + (y + z)
  {
  }

  /** Filtering keeps the order of events, and keeps or skips each by its own type. */
  lemma {:induction false} KeptAppend(a: seq<Event>, b: seq<Event>, skip: Type -> bool)
    ensures Kept(a + b, skip) == Kept(a, skip) + Kept(b, skip)
  {
    if b == [] {
      assert a + b == a;
    } else {
      var init, last := b[..|b| - 1], b[|b| - 1];
      KeptAppend(a, init, skip);
      assert (a + b)[..|a + b| - 1] == a + init && (a + b)[|a + b| - 1] == last;
      Regroup(Kept(a, skip), Kept(init, skip), if skip(last.tp) then [] else [last]);
    }
  }

  lemma KeptOne(e: Event, skip: Type -> bool)
    ensures Kept([e], skip) == if skip(e.tp) then [] else [e]
  {
    assert [e][..0] == [];
    assert Kept([], skip) == [];
  }

  // ---------------------------------------------------------------- events and their parts

  function TypesOf(es: seq<Event>): seq<Type> {
    if es == [] then [] else TypesOf(es[..|es| - 1]) + [es[|es| - 1].tp]
  }

  function RowsOf(es: seq<Event>, tp: Type): seq<Row> {
    if es == [] then []
    else RowsOf(es[..|es| - 1], tp) + if es[|es| - 1].tp == tp then [es[|es| - 1].row] else []
  }

  function Parts(es: seq<Event>): Rows {
    Rows(RowsOf(es, Insert), RowsOf(es, Update), RowsOf(es, DeleteRow))
  }

  ghost predicate Known(es: seq<Event>) {
    forall i :: 0 <= i < |es| ==> !es[i].tp.Unknown?
  }

  lemma {:induction false} TypesCount(es: seq<Event>, tp: Type)
    ensures |TypesOf(es)| == |es| && Count(TypesOf(es), tp) == |RowsOf(es, tp)|
    ensures forall i :: 0 <= i < |es| ==> TypesOf(es)[i] == es[i].tp
  {
    if es != [] {
      TypesCount(es[..|es| - 1], tp);
      assert TypesOf(es)[..|es| - 1] == TypesOf(es[..|es| - 1]);
    }
  }

  lemma TypesPrefix(es: seq<Event>, i: nat)
    requires i < |es|
    ensures |TypesOf(es)| == |es| && TypesOf(es)[..i] == TypesOf(es[..|es| - 1])[..i]
    ensures TypesOf(es)[i] == es[i].tp
  {
    TypesCount(es, Insert);
    TypesCount(es[..|es| - 1], Insert);
  }

  lemma {:induction false} RowsOfAt(es: seq<Event>, i: nat)
    requires i < |es|
    ensures |TypesOf(es)| == |es| && TypesOf(es)[i] == es[i].tp
    ensures Count(TypesOf(es)[..i], es[i].tp) < |RowsOf(es, es[i].tp)|
    ensures RowsOf(es, es[i].tp)[Count(TypesOf(es)[..i], es[i].tp)] == es[i].row
  {
    var init := es[..|es| - 1];
    TypesPrefix(es, i);
    if i < |init| {
      RowsOfAt(init, i);
    } else {
      TypesCount(init, es[i].tp);
      assert TypesOf(init)[..i] == TypesOf(init);
    }
  }

  /** Taking events apart and iterating over the parts gives the events back. */
  lemma Reassembled(es: seq<Event>)
    requires Known(es)
    ensures Enough(TypesOf(es), Parts(es)) && Meaning(TypesOf(es), Parts(es)) == es
  {
    TypesCount(es, Insert);
    TypesCount(es, Update);
    TypesCount(es, DeleteRow);
    forall i | 0 <= i < |es| ensures EventAt(TypesOf(es), Parts(es), i) == es[i] {
      RowsOfAt(es, i);
    }
  }

  // ---------------------------------------------------------------- compaction in place

  /** `done` elements of an array are read, of which `kept` are written to its front; the rest is
      untouched. */
  ghost predicate Compacted<T>(now: seq<T>, before: seq<T>, done: nat, kept: seq<T>) {
    |kept| <= done <= |before| == |now| && now[..|kept|] == kept && now[done..] == before[done..]
  }

  lemma CompactKeep<T>(now: seq<T>, before: seq<T>, done: nat, kept: seq<T>)
    requires Compacted(now, before, done, kept) && done < |before|
    ensures now[done] == before[done]
    ensures Compacted(now, before, done + 1, kept)
    ensures Compacted(now[|kept| := now[done]], before, done + 1, kept + [before[done]])
  {
    assert now[done] == now[done..][0] && before[done] == before[done..][0];
    assert now[done + 1..] == now[done..][1..] && before[done + 1..] == before[done..][1..];
    var next := now[|kept| := now[done]];
    assert next[..|kept| + 1] == kept + [before[done]];
    assert next[done + 1..] == now[done + 1..];
  }

  /** The rows of one type after `i` events, of which `es` are kept. */
  ghost predicate RowsProgress(now: seq<Row>, before: seq<Row>, types: seq<Type>, i: nat, tp: Type, es: seq<Event>)
    requires i <= |types|
  {
    Compacted(now, before, Count(types[..i], tp), RowsOf(es, tp))
  }

  /** After `i` events, of which `es` are kept. */
  ghost predicate Progress(now: seq<Type>, rows: Rows, types: seq<Type>, r: Rows, i: nat, es: seq<Event>) {
    && i <= |types|
    && Compacted(now, types, i, TypesOf(es))
    && RowsProgress(rows.inserted, r.inserted, types, i, Insert, es)
    && RowsProgress(rows.updated, r.updated, types, i, Update, es)
    && RowsProgress(rows.deleted, r.deleted, types, i, DeleteRow, es)
  }

  lemma AppendParts(es: seq<Event>, e: Event)
    ensures TypesOf(es + [e]) == TypesOf(es) + [e.tp]
    ensures forall tp :: RowsOf(es + [e], tp) == RowsOf(es, tp) + if e.tp == tp then [e.row] else []
  {
    assert (es + [e])[..|es|] == es;
  }

  /** Skipping an event reads one more row of its type and none of the others. */
  lemma RowsSkip(now: seq<Row>, before: seq<Row>, types: seq<Type>, i: nat, tp: Type, es: seq<Event>)
    requires i < |types| && RowsProgress(now, before, types, i, tp, es)
    requires types[i] == tp ==> Count(types[..i], tp) < |before|
    ensures RowsProgress(now, before, types, i + 1, tp, es)
  {
    CountNext(types, tp, i);
    if types[i] == tp {
      CompactKeep(now, before, Count(types[..i], tp), RowsOf(es, tp));
    }
  }

  lemma SkipStep(now: seq<Type>, rows: Rows, types: seq<Type>, r: Rows, i: nat, es: seq<Event>)
    requires Progress(now, rows, types, r, i, es) && Enough(types, r) && i < |types| && !types[i].Unknown?
    ensures now[i] == types[i]
    ensures Progress(now, rows, types, r, i + 1, es)
  {
    RowThere(types, r, i);
    CompactKeep(now, types, i, TypesOf(es));
    RowsSkip(rows.inserted, r.inserted, types, i, Insert, es);
    RowsSkip(rows.updated, r.updated, types, i, Update, es);
    RowsSkip(rows.deleted, r.deleted, types, i, DeleteRow, es);
  }

  /** The row just read is written behind those kept. */
  function Moved(s: seq<Row>, target: nat, from: nat): seq<Row>
    requires target < |s| && from < |s|
  {
    s[target := s[from]]
  }

  /** The rows of one type after the event at `i` is kept. */
  ghost function RowsAfter(now: seq<Row>, types: seq<Type>, i: nat, tp: Type, es: seq<Event>): seq<Row>
    requires i < |types|
    requires types[i] == tp ==> |RowsOf(es, tp)| <= Count(types[..i], tp) < |now|
  {
    if types[i] == tp then Moved(now, |RowsOf(es, tp)|, Count(types[..i], tp)) else now
  }

  lemma RowsKeep(now: seq<Row>, before: seq<Row>, types: seq<Type>, i: nat, tp: Type, es: seq<Event>, e: Event)
    requires i < |types| && RowsProgress(now, before, types, i, tp, es) && e.tp == types[i]
    requires types[i] == tp ==> Count(types[..i], tp) < |before| && e.row == before[Count(types[..i], tp)]
    ensures types[i] == tp ==> |RowsOf(es, tp)| <= Count(types[..i], tp) < |now|
    ensures RowsProgress(RowsAfter(now, types, i, tp, es), before, types, i + 1, tp, es + [e])
  {
    CountNext(types, tp, i);
    AppendParts(es, e);
    if types[i] == tp {
      CompactKeep(now, before, Count(types[..i], tp), RowsOf(es, tp));
    }
  }

  lemma KeepStep(now: seq<Type>, rows: Rows, types: seq<Type>, r: Rows, i: nat, es: seq<Event>)
    requires Progress(now, rows, types, r, i, es) && Enough(types, r) && i < |types| && !types[i].Unknown?
    ensures var tp, k := types[i], Count(types[..i], types[i]);
            && |es| <= i < |now| && now[i] == tp && |RowsOf(es, tp)| <= k < |RowsFor(rows, tp)|
            && Progress(now[|es| := now[i]],
                        Rows(RowsAfter(rows.inserted, types, i, Insert, es),
                             RowsAfter(rows.updated, types, i, Update, es),
                             RowsAfter(rows.deleted, types, i, DeleteRow, es)),
                        types, r, i + 1, es + [EventAt(types, r, i)])
  {
    var e := EventAt(types, r, i);
    RowThere(types, r, i);
    TypesCount(es, Insert);
    CompactKeep(now, types, i, TypesOf(es));
    AppendParts(es, e);
    RowsKeep(rows.inserted, r.inserted, types, i, Insert, es, e);
    RowsKeep(rows.updated, r.updated, types, i, Update, es, e);
    RowsKeep(rows.deleted, r.deleted, types, i, DeleteRow, es, e);
  }

  lemma KeptNext(es: seq<Event>, i: nat, skip: Type -> bool)
    requires i < |es|
    ensures Kept(es[..i + 1], skip) == Kept(es[..i], skip) + if skip(es[i].tp) then [] else [es[i]]
  {
    assert es[..i + 1][..i] == es[..i];
  }

  lemma {:induction false} KeptKnown(es: seq<Event>, skip: Type -> bool)
    requires Known(es)
    ensures Known(Kept(es, skip))
  {
    if es != [] {
      KeptKnown(es[..|es| - 1], skip);
    }
  }

  /** How much of each array is in use. */
  datatype Lengths = Lengths(types: nat, inserted: nat, updated: nat, deleted: nat)

  function LengthsOf(es: seq<Event>): Lengths {
    Lengths(|es|, |RowsOf(es, Insert)|, |RowsOf(es, Update)|, |RowsOf(es, DeleteRow)|)
  }

  function Counted(types: seq<Type>, i: nat): Lengths
    requires i <= |types|
  {
    Lengths(i, Count(types[..i], Insert), Count(types[..i], Update), Count(types[..i], DeleteRow))
  }

  function Advance(n: Lengths, tp: Type): Lengths {
    match tp
    case Insert => n.(types := n.types + 1, inserted := n.inserted + 1)
    case Update => n.(types := n.types + 1, updated := n.updated + 1)
    case DeleteRow => n.(types := n.types + 1, deleted := n.deleted + 1)
    case Unknown(_) => n.(types := n.types + 1)
  }

  lemma CountedNext(types: seq<Type>, i: nat)
    requires i < |types|
    ensures Counted(types, i + 1) == Advance(Counted(types, i), types[i])
  {
    CountNext(types, Insert, i);
    CountNext(types, Update, i);
    CountNext(types, DeleteRow, i);
  }

  /** The fronts of the arrays are the parts of the events kept. */
  lemma ProgressPrefix(now: seq<Type>, rows: Rows, types: seq<Type>, r: Rows, es: seq<Event>)
    requires Progress(now, rows, types, r, |types|, es) && Known(es)
    ensures var n := LengthsOf(es);
            && n.types <= |now| && n.inserted <= |rows.inserted| && n.updated <= |rows.updated| && n.deleted <= |rows.deleted|
            && var fronts := Rows(rows.inserted[..n.inserted], rows.updated[..n.updated], rows.deleted[..n.deleted]);
               Enough(now[..n.types], fronts) && AllKnown(now[..n.types]) && Meaning(now[..n.types], fronts) == es
  {
    TypesCount(es, Insert);
    Reassembled(es);
  }

  // ---------------------------------------------------------------- iteration

  datatype Next = EOF | Bad | Got(event: Event)

  /** Iterates over the events of a mutation, with one index per array. */
  class SequenceIterator {
    const types: seq<Type>
    const rows: Rows
    var at: Lengths

    ghost predicate Valid() reads this {
      at.types <= |types| && Enough(types, rows) && at == Counted(types, at.types)
    }

    constructor (types: seq<Type>, rows: Rows)
      requires Enough(types, rows)
      ensures Valid() && at.types == 0 && this.types == types && this.rows == rows
    {
      this.types, this.rows, at := types, rows, Lengths(0, 0, 0, 0);
    }

    /** The next event of the mutation, the end, or an error at an unknown type. */
    method Next() returns (r: Next)
      requires Valid()
      modifies this
      ensures Valid()
      ensures old(at.types) == |types| ==> r == EOF && at == old(at)
      ensures old(at.types) < |types| ==>
                && at.types == old(at.types) + 1
                && r == if types[old(at.types)].Unknown? then Bad else Got(Meaning(types, rows)[old(at.types)])
    {
      if at.types >= |types| {
        return EOF;
      }
      var tp := types[at.types];
      if !tp.Unknown? {
        RowThere(types, rows, at.types);
      }
      CountedNext(types, at.types);
      match tp {
        case Insert => r := Got(Event(tp, rows.inserted[at.inserted]));
        case Update => r := Got(Event(tp, rows.updated[at.updated]));
        case DeleteRow => r := Got(Event(tp, rows.deleted[at.deleted]));
        case Unknown(_) => r := Bad;
      }
      at := Advance(at, tp);
    }
  }

  /** Iterating to the end yields the events of the mutation, unless there is an unknown type. */
  method Iterate(types: seq<Type>, rows: Rows) returns (ok: bool, events: seq<Event>)
    requires Enough(types, rows)
    ensures ok <==> AllKnown(types)
    ensures ok ==> events == Meaning(types, rows)
  {
    var si := new SequenceIterator(types, rows);
    events := [];
    while true
      invariant fresh(si) && si.Valid() && si.types == types && si.rows == rows
      invariant events == Meaning(types, rows)[..si.at.types] && AllKnown(types[..si.at.types])
      decreases |types| - si.at.types
    {
      var n := si.at.types;
      var r := si.Next();
      match r {
        case EOF =>
          return true, events;
        case Bad =>
          return false, events;
        case Got(event) =>
          events := events + [event];
          assert types[..n + 1] == types[..n] + [types[n]];
      }
    }
  }

  // ---------------------------------------------------------------- filtering

  /** The arrays of a table mutation. */
  class Mutation {
    const sequence: array<Type>
    const inserted: array<Row>
    const updated: array<Row>
    const deleted: array<Row>

    constructor (sequence: array<Type>, inserted: array<Row>, updated: array<Row>, deleted: array<Row>)
      ensures this.sequence == sequence && this.inserted == inserted && this.updated == updated && this.deleted == deleted
    {
      this.sequence, this.inserted, this.updated, this.deleted := sequence, inserted, updated, deleted;
    }

    ghost predicate Valid() {
      inserted != updated && inserted != deleted && updated != deleted
    }

    ghost function Contents(): Rows
      reads inserted, updated, deleted
    {
      Rows(inserted[..], updated[..], deleted[..])
    }

    ghost predicate Fits(n: Lengths) {
      n.types <= sequence.Length && n.inserted <= inserted.Length && n.updated <= updated.Length && n.deleted <= deleted.Length
    }

    /** The rows when only the first part of each array is in use. */
    ghost function Fronts(n: Lengths): Rows
      reads inserted, updated, deleted
      requires Fits(n)
    {
      Rows(inserted[..n.inserted], updated[..n.updated], deleted[..n.deleted])
    }

    /** Copy the row just read, the `read`-th of its type, behind the `f` rows kept. */
    method CopyRow(rows: array<Row>, read: nat, f: nat)
      requires f <= read < rows.Length
      modifies rows
      ensures rows[..] == Moved(old(rows[..]), f, read)
    {
      rows[f] := rows[read];
    }

    /** Keep the event read at place `i`. */
    method KeepEvent(i: nat, n: Lengths, read: Lengths, ghost types: seq<Type>, ghost r: Rows, ghost es: seq<Event>)
      returns (n': Lengths)
      requires Valid() && Enough(types, r) && i < |types| && !types[i].Unknown?
      requires Progress(sequence[..], Contents(), types, r, i, es)
      requires sequence[i] == types[i]
      requires n == LengthsOf(es) && read == Counted(types, i)
      modifies sequence, inserted, updated, deleted
      ensures n' == LengthsOf(es + [EventAt(types, r, i)])
      ensures Progress(sequence[..], Contents(), types, r, i + 1, es + [EventAt(types, r, i)])
    {
      ghost var now, rows := sequence[..], Contents();
      TypesCount(es, Insert);
      AppendParts(es, EventAt(types, r, i));
      KeepStep(now, rows, types, r, i, es);
      var tp := sequence[i];
      sequence[n.types] := sequence[i];
      match tp {
        case Insert =>
          CopyRow(inserted, read.inserted, n.inserted);
          n' := n.(types := n.types + 1, inserted := n.inserted + 1);
        case Update =>
          CopyRow(updated, read.updated, n.updated);
          n' := n.(types := n.types + 1, updated := n.updated + 1);
        case DeleteRow =>
          CopyRow(deleted, read.deleted, n.deleted);
          n' := n.(types := n.types + 1, deleted := n.deleted + 1);
      }
      assert sequence[..] == now[|es| := now[i]];
    }

    /** One turn of the loop: the event at `i` is kept unless its type is skipped. */
    method FilterOne(i: nat, n: Lengths, read: Lengths, skip: Type -> bool, ghost types: seq<Type>, ghost r: Rows, ghost es: seq<Event>)
      returns (known: bool, n': Lengths, ghost es': seq<Event>)
      requires Valid() && Enough(types, r) && i < |types| == sequence.Length
      requires Progress(sequence[..], Contents(), types, r, i, es)
      requires n == LengthsOf(es) && read == Counted(types, i)
      modifies sequence, inserted, updated, deleted
      ensures known <==> !types[i].Unknown?
      ensures known ==> es' == es + if skip(types[i]) then [] else [EventAt(types, r, i)]
      ensures known ==> n' == LengthsOf(es') && Progress(sequence[..], Contents(), types, r, i + 1, es')
    {
      CompactKeep(sequence[..], types, i, TypesOf(es));
      var tp := sequence[i];
      if tp.Unknown? {
        return false, n, es;
      }
      known, n', es' := true, n, es;
      if skip(tp) {
        SkipStep(sequence[..], Contents(), types, r, i, es);
        assert es + [] == es;
      } else {
        n' := KeepEvent(i, n, read, types, r, es);
        es' := es + [EventAt(types, r, i)];
      }
    }

    /** After filtering, the fronts of the arrays hold a row for every event, and give exactly the
        original events without those of the skipped types, in order.  An unknown type is an error. */
    method FilterRows(skip: Type -> bool) returns (ok: bool, n: Lengths)
      requires Valid() && Enough(sequence[..], Contents())
      modifies sequence, inserted, updated, deleted
      ensures ok <==> AllKnown(old(sequence[..]))
      ensures ok ==> Fits(n) && Enough(sequence[..n.types], Fronts(n)) && AllKnown(sequence[..n.types])
      ensures ok ==> Meaning(sequence[..n.types], Fronts(n)) == Kept(old(Meaning(sequence[..], Contents())), skip)
    {
      ghost var types, r := sequence[..], Contents();
      ghost var all, es := Meaning(types, r), [];
      var read := Lengths(0, 0, 0, 0);
      n := read;
      for i := 0 to sequence.Length
        invariant forall j :: 0 <= j < i ==> !types[j].Unknown?
        invariant es == Kept(all[..i], skip)
        invariant Progress(sequence[..], Contents(), types, r, i, es)
        invariant n == LengthsOf(es) && read == Counted(types, i)
      {
        CompactKeep(sequence[..], types, i, TypesOf(es));
        var tp := sequence[i];
        ok, n, es := FilterOne(i, n, read, skip, types, r, es);
        if !ok {
          return;
        }
        KeptNext(all, i, skip);
        CountedNext(types, i);
        read := Advance(read, tp);
      }
      assert all[..|types|] == all;
      KeptKnown(all, skip);
      ProgressPrefix(sequence[..], Contents(), types, r, es);
      return true, n;
    }

    /** Main result: iterating to the end after filtering in place yields exactly the original events
        without those of the skipped types, in order. */
    method FilterThenIterate(skip: Type -> bool) returns (ok: bool, events: seq<Event>)
      requires Valid() && Enough(sequence[..], Contents())
      modifies sequence, inserted, updated, deleted
      ensures ok <==> AllKnown(old(sequence[..]))
      ensures ok ==> events == Kept(old(Meaning(sequence[..], Contents())), skip)
    {
      var n;
      ok, n := FilterRows(skip);
      if !ok {
        return false, [];
      }
      ok, events := Iterate(sequence[..n.types], Rows(inserted[..n.inserted], updated[..n.updated], deleted[..n.deleted]));
    }
  }
}
