/** The write pipeline of a pump: the writer appends batches to the value log and sends their
    records to the index writer; when that channel blocks, the slow chaser takes over and
    re-reads the log.  Records are named by their position in the log.

    The writer and the chaser run concurrently; the write lock is held for a whole batch and
    for a whole recovery.  Time-outs and cancellations are nondeterministic steps. */
module WritePipeline {
  import opened Collections

  /** `Sending(i, e)`: the writer holds the lock and has still to send records `i..e`. */
  datatype Writer = Idle | Sending(next: nat, end: nat)

  /** `Scan(pos, seen, locked)`: the chaser has come to record `pos`; `seen` says that it has
      noted it as the last unread one, `locked` that this is the recovery under the lock. */
  datatype Chaser = Rest | Scan(pos: nat, seen: bool, locked: bool)

  /** `base` is where the log was replayed from at start-up. */
  datatype Pipe = Pipe(base: nat, size: nat, sent: seq<nat>, on: bool, lastUnread: Option<nat>, writer: Writer, chaser: Chaser)

  datatype Step =
    | WriteBatch(count: nat)
    | SendOne
    | SendTimeout
    | ChaseStart
    | ChaseLock
    | ChaseSee
    | ChaseSend
    | ChaseGiveUp
    | ChaseEnd

  /** At start-up the records from `base` on are replayed. */
  function Start(base: nat, size: nat): Pipe
    requires base <= size
  {
    Pipe(base, size, [], false, None, if base == size then Idle else Sending(base, size), Rest)
  }

  predicate Locked(p: Pipe) {
    p.writer.Sending? || (p.chaser.Scan? && p.chaser.locked)
  }

  predicate Enabled(p: Pipe, a: Step) {
    match a
    case WriteBatch(_) => !Locked(p)
    case SendOne => p.writer.Sending?
    case SendTimeout => p.writer.Sending?
    case ChaseStart => p.chaser.Rest? && p.on && p.lastUnread.Some?
    case ChaseLock => p.chaser.Rest? && p.on && p.lastUnread.Some? && !Locked(p)
    case ChaseSee => p.chaser.Scan? && !p.chaser.seen && p.chaser.pos < p.size
    case ChaseSend => p.chaser.Scan? && p.chaser.seen
    case ChaseGiveUp => p.chaser.Scan? && p.chaser.seen
    case ChaseEnd => p.chaser.Scan? && !p.chaser.seen && (p.chaser.locked ==> p.chaser.pos == p.size)
  }

  function Apply(p: Pipe, a: Step): Pipe
    requires Enabled(p, a)
  {
    match a
    case WriteBatch(count) =>
      if p.on || count == 0 then p.(size := p.size + count)
      else p.(size := p.size + count, writer := Sending(p.size, p.size + count))
    case SendOne =>
      p.(sent := p.sent + [p.writer.next],
         writer := if p.writer.next + 1 < p.writer.end then Sending(p.writer.next + 1, p.writer.end) else Idle)
    case SendTimeout => p.(on := true, lastUnread := Some(p.writer.next), writer := Idle)
    case ChaseStart => p.(chaser := Scan(p.lastUnread.value, false, false))
    case ChaseLock => p.(chaser := Scan(p.lastUnread.value, false, true))
    case ChaseSee => p.(lastUnread := Some(p.chaser.pos), chaser := p.chaser.(seen := true))
    case ChaseSend => p.(sent := p.sent + [p.chaser.pos], chaser := p.chaser.(pos := p.chaser.pos + 1, seen := false))
    case ChaseGiveUp => p.(chaser := Rest)
    case ChaseEnd => if p.chaser.locked then p.(on := false, lastUnread := None, chaser := Rest) else p.(chaser := Rest)
  }

  /** The first record the stream has not reached. */
  function Next(base: nat, sent: seq<nat>): nat {
    if sent == [] then base else sent[|sent| - 1] + 1
  }

  /** The entry goes on to the next record or repeats the previous one. */
  predicate Follows(base: nat, sent: seq<nat>, i: nat)
    requires i < |sent|
  {
    sent[i] == (if i == 0 then base else sent[i - 1] + 1) || (0 < i && sent[i] == sent[i - 1])
  }

  /** With adjacent repeats removed the stream is `base, base + 1, ...`. */
  ghost predicate Gapless(base: nat, sent: seq<nat>) {
    forall i :: 0 <= i < |sent| ==> Follows(base, sent, i)
  }

  ghost predicate Inv(p: Pipe) {
    var next := Next(p.base, p.sent);
    && Gapless(p.base, p.sent)
    && p.base <= next <= p.size
    && (!p.on ==> p.lastUnread.None? && p.chaser.Rest?)
    && (p.writer.Sending? ==> !p.on && p.writer.next == next && next < p.writer.end == p.size)
    && (!p.on && p.writer.Idle? ==> next == p.size)
    && (p.on ==> p.lastUnread.Some? && p.lastUnread.value < p.size
                 && (p.lastUnread.value == next || (p.sent != [] && p.lastUnread.value == next - 1)))
    && (p.chaser.Scan? ==> p.chaser.pos <= p.size && (p.chaser.pos == next || (p.sent != [] && p.chaser.pos == next - 1)))
    && (p.chaser.Scan? && p.chaser.seen ==> p.chaser.pos < p.size && p.lastUnread == Some(p.chaser.pos))
  }

  lemma GaplessSnoc(base: nat, sent: seq<nat>, pos: nat)
    requires Gapless(base, sent)
    requires pos == Next(base, sent) || (sent != [] && pos == Next(base, sent) - 1)
    ensures Gapless(base, sent + [pos]) && Next(base, sent + [pos]) == pos + 1
  {
    var sent' := sent + [pos];
    forall i | 0 <= i < |sent'| ensures Follows(base, sent', i) {
      assert i < |sent| ==> Follows(base, sent, i);
    }
  }

  lemma StepKeeps(p: Pipe, a: Step)
    requires Inv(p) && Enabled(p, a)
    ensures Inv(Apply(p, a))
  {
    if a.SendOne? {
      GaplessSnoc(p.base, p.sent, p.writer.next);
    } else if a.ChaseSend? {
      GaplessSnoc(p.base, p.sent, p.chaser.pos);
    }
  }

  ghost predicate Runs(p: Pipe, steps: seq<Step>)
    decreases |steps|
  {
    steps == [] || (Enabled(p, steps[0]) && Runs(Apply(p, steps[0]), steps[1..]))
  }

  ghost function End(p: Pipe, steps: seq<Step>): Pipe
    requires Runs(p, steps)
    decreases |steps|
  {
    if steps == [] then p else End(Apply(p, steps[0]), steps[1..])
  }

  lemma {:induction false} RunKeeps(p: Pipe, steps: seq<Step>)
    requires Inv(p) && Runs(p, steps)
    ensures Inv(End(p, steps)) && End(p, steps).base == p.base
    decreases |steps|
  {
    if steps != [] {
      StepKeeps(p, steps[0]);
      RunKeeps(Apply(p, steps[0]), steps[1..]);
    }
  }

  /** The positions named by a gapless stream are exactly `base .. Next - 1`. */
  lemma {:induction false} GaplessCovers(base: nat, sent: seq<nat>)
    requires Gapless(base, sent)
    ensures base <= Next(base, sent)
    ensures forall pos :: pos in sent <==> base <= pos < Next(base, sent)
  {
    if sent != [] {
      var init, last := sent[..|sent| - 1], sent[|sent| - 1];
      forall i | 0 <= i < |init| ensures Follows(base, init, i) {
        assert Follows(base, sent, i);
      }
      assert Follows(base, sent, |init|);
      GaplessCovers(base, init);
      assert sent == init + [last];
      assert last == Next(base, init) || (init != [] && last == Next(base, init) - 1);
      forall pos ensures pos in sent <==> base <= pos < Next(base, sent) {
        assert pos in sent <==> pos in init || pos == last;
      }
    }
  }

  /** Main result.  In every run the stream to the index, adjacent repeats aside, is a prefix
      of the log from the replay point on; it is all of the log whenever the chaser is off and
      no batch is being sent. */
  lemma NoGap(base: nat, size: nat, steps: seq<Step>)
    requires base <= size && Runs(Start(base, size), steps)
    ensures var p := End(Start(base, size), steps);
      && Gapless(base, p.sent)
      && (forall pos :: pos in p.sent ==> base <= pos < p.size)
      && (!p.on && p.writer.Idle? ==> forall pos :: pos in p.sent <==> base <= pos < p.size)
  {
    RunKeeps(Start(base, size), steps);
    GaplessCovers(base, End(Start(base, size), steps).sent);
  }

  // ---------------------------------------------------------------- the stream can always catch up

  function Written(steps: seq<Step>): nat {
    if steps == [] then 0 else (if steps[0].WriteBatch? then steps[0].count else 0) + Written(steps[1..])
  }

  /** The log grows by what is written, and by nothing else. */
  lemma {:induction false} SizeExact(p: Pipe, steps: seq<Step>)
    requires Runs(p, steps)
    ensures End(p, steps).size == p.size + Written(steps)
    decreases |steps|
  {
    if steps != [] {
      SizeExact(Apply(p, steps[0]), steps[1..]);
    }
  }

  /** There are steps, none of them a write, after which the chaser is off and nothing is being sent. */
  ghost predicate CatchesUp(p: Pipe) {
    exists steps :: Runs(p, steps) && Written(steps) == 0 && !End(p, steps).on && End(p, steps).writer.Idle?
  }

  lemma StepCatchesUp(p: Pipe, a: Step)
    requires Enabled(p, a) && !a.WriteBatch? && CatchesUp(Apply(p, a))
    ensures CatchesUp(p)
  {
    var next := Apply(p, a);
    var rest :| Runs(next, rest) && Written(rest) == 0 && !End(next, rest).on && End(next, rest).writer.Idle?;
    var steps := [a] + rest;
    assert steps[1..] == rest;
    assert Runs(p, steps) && Written(steps) == 0 && End(p, steps) == End(next, rest);
  }

  lemma NothingToDo(p: Pipe)
    requires !p.on && p.writer.Idle?
    ensures CatchesUp(p)
  {
    assert Runs(p, []) && Written([]) == 0 && End(p, []) == p;
  }

  /** The writer sends the rest of its batch. */
  lemma {:induction false} WriterCatchesUp(p: Pipe)
    requires Inv(p) && p.writer.Sending?
    ensures CatchesUp(p)
    decreases p.writer.end - p.writer.next
  {
    StepKeeps(p, SendOne);
    var next := Apply(p, SendOne);
    if next.writer.Idle? {
      NothingToDo(next);
    } else {
      WriterCatchesUp(next);
    }
    StepCatchesUp(p, SendOne);
  }

  /** The chaser, holding the lock, sends the rest of the log and turns itself off. */
  lemma {:induction false} ChaserCatchesUp(p: Pipe)
    requires Inv(p) && p.on && p.chaser.Scan? && p.chaser.locked && !p.chaser.seen
    ensures CatchesUp(p)
    decreases p.size - p.chaser.pos
  {
    if p.chaser.pos == p.size {
      NothingToDo(Apply(p, ChaseEnd));
      StepCatchesUp(p, ChaseEnd);
    } else {
      var seen := Apply(p, ChaseSee);
      var next := Apply(seen, ChaseSend);
      StepKeeps(p, ChaseSee);
      StepKeeps(seen, ChaseSend);
      ChaserCatchesUp(next);
      StepCatchesUp(seen, ChaseSend);
      StepCatchesUp(p, ChaseSee);
    }
  }

  lemma RestCatchesUp(p: Pipe)
    requires Inv(p) && p.on && p.chaser.Rest?
    ensures CatchesUp(p)
  {
    StepKeeps(p, ChaseLock);
    ChaserCatchesUp(Apply(p, ChaseLock));
    StepCatchesUp(p, ChaseLock);
  }

  lemma AnyCatchesUp(p: Pipe)
    requires Inv(p)
    ensures CatchesUp(p)
  {
    if p.writer.Sending? {
      WriterCatchesUp(p);
    } else if !p.on {
      NothingToDo(p);
    } else if p.chaser.Rest? {
      RestCatchesUp(p);
    } else if p.chaser.seen {
      StepKeeps(p, ChaseGiveUp);
      RestCatchesUp(Apply(p, ChaseGiveUp));
      StepCatchesUp(p, ChaseGiveUp);
    } else if p.chaser.locked {
      ChaserCatchesUp(p);
    } else {
      StepKeeps(p, ChaseEnd);
      RestCatchesUp(Apply(p, ChaseEnd));
      StepCatchesUp(p, ChaseEnd);
    }
  }

  /** Main result on progress: from every state of every run, whatever the writer and the chaser are doing,
      they can go on until the whole log has been handed to the index and the chaser is off. */
  lemma StreamCatchesUp(base: nat, size: nat, steps: seq<Step>) returns (more: seq<Step>)
    requires base <= size && Runs(Start(base, size), steps)
    ensures var p := End(Start(base, size), steps);
      && Runs(p, more) && Written(more) == 0
      && var q := End(p, more);
         q.size == p.size && !q.on && q.writer.Idle? && forall pos :: pos in q.sent <==> base <= pos < p.size
  {
    var p := End(Start(base, size), steps);
    RunKeeps(Start(base, size), steps);
    AnyCatchesUp(p);
    more :| Runs(p, more) && Written(more) == 0 && !End(p, more).on && End(p, more).writer.Idle?;
    RunKeeps(p, more);
    SizeExact(p, more);
    GaplessCovers(base, End(p, more).sent);
  }

  // ---------------------------------------------------------------- index and restart

  /** The index writer has stored the first `n` entries of the stream; the head pointer is the
      last of them.  Every record up to the head pointer is indexed: it was stored in this run,
      or it lies before the replay point. */
  lemma HeadCovers(base: nat, sent: seq<nat>, n: nat)
    requires Gapless(base, sent) && 0 < n <= |sent|
    ensures forall pos :: base <= pos <= sent[n - 1] ==> pos in sent[..n]
  {
    var stored := sent[..n];
    forall i | 0 <= i < |stored| ensures Follows(base, stored, i) {
      assert Follows(base, sent, i);
    }
    GaplessCovers(base, stored);
  }

  /** What a crash leaves: the records indexed, the head and handle pointers, and the log. */
  datatype Disk = Disk(indexed: set<nat>, head: nat, handle: nat, size: nat)

  /** One life of the process: its steps, how many stream entries were stored before the crash, and
      the handle pointer saved by then. */
  datatype Life = Life(steps: seq<Step>, stored: nat, handle: nat)

  /** The log is replayed from the smaller of the head pointer and the handle pointer. */
  function ReplayFrom(d: Disk): nat {
    if d.handle < d.head then d.handle else d.head
  }

  ghost predicate Possible(d: Disk, life: Life) {
    && ReplayFrom(d) <= d.size && Runs(Start(ReplayFrom(d), d.size), life.steps)
    && life.stored <= |End(Start(ReplayFrom(d), d.size), life.steps).sent|
  }

  ghost function AfterLife(d: Disk, life: Life): Disk
    requires Possible(d, life)
  {
    var p := End(Start(ReplayFrom(d), d.size), life.steps);
    Disk(d.indexed + (set pos | pos in p.sent[..life.stored]),
         if life.stored == 0 then d.head else p.sent[life.stored - 1], life.handle, p.size)
  }

  /** Every record before the head pointer is indexed. */
  ghost predicate HeadOk(d: Disk) {
    d.head <= d.size && forall pos :: 0 <= pos < d.head ==> pos in d.indexed
  }

  /** A crash at any moment, before anything was stored included, keeps this; and once a life has sent
      and stored everything, nothing is missing. */
  lemma RestartCovers(d: Disk, life: Life)
    requires HeadOk(d) && Possible(d, life)
    ensures HeadOk(AfterLife(d, life)) && d.size <= AfterLife(d, life).size
    ensures var p := End(Start(ReplayFrom(d), d.size), life.steps);
            !p.on && p.writer.Idle? && life.stored == |p.sent| ==>
              forall pos :: 0 <= pos < p.size ==> pos in AfterLife(d, life).indexed
  {
    var base := ReplayFrom(d);
    NoGap(base, d.size, life.steps);
    RunGrows(Start(base, d.size), life.steps);
    var p := End(Start(base, d.size), life.steps);
    if life.stored > 0 {
      HeadCovers(base, p.sent, life.stored);
      assert p.sent[life.stored - 1] in p.sent;
    }
    if life.stored == |p.sent| {
      assert p.sent[..life.stored] == p.sent;
    }
  }

  lemma {:induction false} RunGrows(p: Pipe, steps: seq<Step>)
    requires Runs(p, steps)
    ensures p.size <= End(p, steps).size
    decreases |steps|
  {
    if steps != [] {
      RunGrows(Apply(p, steps[0]), steps[1..]);
    }
  }

  ghost predicate AllPossible(d: Disk, lives: seq<Life>)
    decreases |lives|
  {
    lives != [] ==> Possible(d, lives[0]) && AllPossible(AfterLife(d, lives[0]), lives[1..])
  }

  ghost function AfterLives(d: Disk, lives: seq<Life>): Disk
    requires AllPossible(d, lives)
    decreases |lives|
  {
    if lives == [] then d else AfterLives(AfterLife(d, lives[0]), lives[1..])
  }

  /** Main result for restarts: after any number of lives, each ended by a crash at any moment with any
      handle pointer, everything before the next replay point is indexed. */
  lemma {:induction false} LivesCover(d: Disk, lives: seq<Life>)
    requires HeadOk(d) && AllPossible(d, lives)
    ensures HeadOk(AfterLives(d, lives))
    ensures forall pos :: 0 <= pos < ReplayFrom(AfterLives(d, lives)) ==> pos in AfterLives(d, lives).indexed
    decreases |lives|
  {
    if lives != [] {
      RestartCovers(d, lives[0]);
      LivesCover(AfterLife(d, lives[0]), lives[1..]);
    }
  }

  // ---------------------------------------------------------------- the chaser object

  /** The positions from `start` up to `end`. */
  function Range(start: nat, end: nat): seq<nat>
    requires start <= end
  {
    seq(end - start, i => start + i)
  }

  class SlowChaser {
    var on: bool
    var lastUnreadPtr: Option<nat>
    var output: seq<nat>

    constructor ()
      ensures !on && lastUnreadPtr.None? && output == []
    {
      on, lastUnreadPtr, output := false, None, [];
    }

    /** Scans records `lastUnreadPtr .. end`; `stop` is the record at which the context is done,
        if it is.  On success everything was sent and `lastUnreadPtr` is the last record sent;
        on failure `lastUnreadPtr` is the first record not sent. */
    method CatchUp(end: nat, stop: Option<nat>) returns (ok: bool)
      requires lastUnreadPtr.Some? && lastUnreadPtr.value < end
      modifies this`lastUnreadPtr, this`output
      ensures ok <==> !(stop.Some? && old(lastUnreadPtr).value <= stop.value < end)
      ensures ok ==> output == old(output) + Range(old(lastUnreadPtr).value, end) && lastUnreadPtr == Some(end - 1)
      ensures !ok ==> output == old(output) + Range(old(lastUnreadPtr).value, stop.value) && lastUnreadPtr == stop
    {
      var start := lastUnreadPtr.value;
      var pos := start;
      while pos < end
        invariant start <= pos <= end
        invariant output == old(output) + Range(start, pos)
        invariant stop.Some? ==> !(start <= stop.value < pos)
        invariant pos > start ==> lastUnreadPtr == Some(pos - 1)
      {
        lastUnreadPtr := Some(pos);
        if stop == Some(pos) {
          return false;
        }
        assert Range(start, pos + 1) == Range(start, pos) + [pos];
        output := output + [pos];
        pos := pos + 1;
      }
      return true;
    }
  }
}
