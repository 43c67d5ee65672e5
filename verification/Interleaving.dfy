/** Work spread over the queues of several workers, and when any interleaving of the queues gives
    the result of the serial order. */
module Interleaving {
  import opened Collections

  type Stepper<!S, -W> = (S, W) -> Option<S>

  function Run<S, W>(step: Stepper<S, W>, s: S, ws: seq<W>): Option<S>
    decreases |ws|
  {
    if ws == [] then Some(s)
    else match step(s, ws[0])
      case None => None
      case Some(next) => Run(step, next, ws[1..])
  }

  /** Where one may run before the other, it may also run after it, with the same result. */
  ghost predicate Commutes<S(!new), W>(step: Stepper<S, W>, x: W, y: W) {
    forall s :: step(s, x).Some? && step(step(s, x).value, y).Some? ==>
                  step(s, y).Some? && step(step(s, y).value, x) == step(step(s, x).value, y)
  }

  lemma {:induction false} RunAppend<S, W>(step: Stepper<S, W>, s: S, xs: seq<W>, ys: seq<W>)
    ensures Run(step, s, xs + ys) == if Run(step, s, xs).Some? then Run(step, Run(step, s, xs).value, ys) else None
    decreases |xs|
  {
    if xs == [] {
      assert xs + ys == ys;
    } else {
      assert (xs + ys)[0] == xs[0] && (xs + ys)[1..] == xs[1..] + ys;
      if step(s, xs[0]).Some? {
        RunAppend(step, step(s, xs[0]).value, xs[1..], ys);
      }
    }
  }

  lemma RunSnoc<S, W>(step: Stepper<S, W>, s: S, ws: seq<W>, w: W)
    ensures Run(step, s, ws + [w]) == if Run(step, s, ws).Some? then step(Run(step, s, ws).value, w) else None
  {
    RunAppend(step, s, ws, [w]);
    assert [w][1..] == [];
  }

  /** Work that can always be done never stops a run. */
  lemma {:induction false} RunPossible<S(!new), W>(step: Stepper<S, W>, s: S, ws: seq<W>)
    requires forall i, t :: 0 <= i < |ws| ==> step(t, ws[i]).Some?
    ensures Run(step, s, ws).Some?
    decreases |ws|
  {
    if ws != [] {
      assert step(s, ws[0]).Some?;
      assert forall i :: 0 <= i < |ws[1..]| ==> ws[1..][i] == ws[i + 1];
      RunPossible(step, step(s, ws[0]).value, ws[1..]);
    }
  }

  function Without<T>(s: seq<T>, p: nat): seq<T>
    requires p < |s|
  {
    s[..p] + s[p + 1..]
  }

  /** Work that commutes with everything before it may as well run first. */
  lemma {:induction false} RunFirst<S(!new), W>(step: Stepper<S, W>, s: S, ws: seq<W>, p: nat)
    requires p < |ws| && Run(step, s, ws).Some?
    requires forall i :: 0 <= i < p ==> Commutes(step, ws[i], ws[p])
    ensures step(s, ws[p]).Some?
    ensures Run(step, step(s, ws[p]).value, Without(ws, p)) == Run(step, s, ws)
    decreases p
  {
    if p == 0 {
      assert Without(ws, p) == ws[1..];
    } else {
      RunFirst(step, step(s, ws[0]).value, ws[1..], p - 1);
      assert Commutes(step, ws[0], ws[p]);
      assert Without(ws, p)[0] == ws[0] && Without(ws, p)[1..] == Without(ws[1..], p - 1);
    }
  }

  // ---------------------------------------------------------------- queues

  /** Work in the queue of a worker. */
  datatype Job<+W> = Job(worker: nat, work: W)

  function Works<W>(js: seq<Job<W>>): (ws: seq<W>)
    ensures |ws| == |js| && forall i :: 0 <= i < |js| ==> ws[i] == js[i].work
  {
    seq(|js|, i requires 0 <= i < |js| => js[i].work)
  }

  function Queue<W>(js: seq<Job<W>>, w: nat): seq<W> {
    if js == [] then []
    else (if js[0].worker == w then [js[0].work] else []) + Queue(js[1..], w)
  }

  lemma {:induction false} QueueAppend<W>(js: seq<Job<W>>, j: Job<W>, w: nat)
    ensures Queue(js + [j], w) == Queue(js, w) + if j.worker == w then [j.work] else []
  {
    if js == [] {
      assert js + [j] == [j] && [j][1..] == [];
    } else {
      assert (js + [j])[0] == js[0] && (js + [j])[1..] == js[1..] + [j];
      QueueAppend(js[1..], j, w);
      Joined(if js[0].worker == w then [js[0].work] else [], Queue(js[1..], w), if j.worker == w then [j.work] else []);
    }
  }

  lemma Joined<W>(x: seq<W>, y: seq<W>, z: seq<W>)
    ensures x + (y + z) == x + y + z
  {
  }

  /** The position of the head of a worker's queue. */
  ghost function Head<W>(js: seq<Job<W>>, w: nat): (p: nat)
    requires Queue(js, w) != []
    ensures p < |js| && js[p].worker == w && js[p].work == Queue(js, w)[0]
    ensures forall i :: 0 <= i < p ==> js[i].worker != w
  {
    if js[0].worker == w then 0 else 1 + Head(js[1..], w)
  }

  lemma {:induction false} QueueWithout<W>(js: seq<Job<W>>, w: nat, v: nat)
    requires Queue(js, w) != []
    ensures Queue(Without(js, Head(js, w)), v) == if v == w then Queue(js, w)[1..] else Queue(js, v)
  {
    var p := Head(js, w);
    if js[0].worker == w {
      assert Without(js, p) == js[1..];
    } else {
      assert Without(js, p)[0] == js[0] && Without(js, p)[1..] == Without(js[1..], p - 1);
      QueueWithout(js[1..], w, v);
    }
  }

  /** Work queued for different workers commutes. */
  ghost predicate Separate<S(!new), W>(step: Stepper<S, W>, js: seq<Job<W>>) {
    forall i, j :: 0 <= i < j < |js| && js[i].worker != js[j].worker ==> Commutes(step, js[i].work, js[j].work)
  }

  lemma SeparateWithout<S(!new), W>(step: Stepper<S, W>, js: seq<Job<W>>, p: nat)
    requires Separate(step, js) && p < |js|
    ensures Separate(step, Without(js, p))
  {
    var rest := Without(js, p);
    forall i, j | 0 <= i < j < |rest| && rest[i].worker != rest[j].worker
      ensures Commutes(step, rest[i].work, rest[j].work)
    {
      assert rest[i] == js[if i < p then i else i + 1] && rest[j] == js[if j < p then j else j + 1];
    }
  }

  /** Whichever worker goes next, the rest of the work still leads to the serial result. */
  lemma AnyWorkerNext<S(!new), W>(step: Stepper<S, W>, s: S, js: seq<Job<W>>, w: nat)
    requires Separate(step, js) && Queue(js, w) != [] && Run(step, s, Works(js)).Some?
    ensures step(s, Queue(js, w)[0]).Some?
    ensures Run(step, step(s, Queue(js, w)[0]).value, Works(Without(js, Head(js, w)))) == Run(step, s, Works(js))
    ensures Separate(step, Without(js, Head(js, w)))
  {
    var p := Head(js, w);
    forall i | 0 <= i < p ensures Commutes(step, Works(js)[i], Works(js)[p]) {
      assert js[i].worker != js[p].worker;
    }
    RunFirst(step, s, Works(js), p);
    assert Without(Works(js), p) == Works(Without(js, p));
    SeparateWithout(step, js, p);
  }

  /** The queues hold the work, each worker's in order. */
  ghost predicate Holds<W>(queues: seq<seq<W>>, js: seq<Job<W>>) {
    && (forall w :: 0 <= w < |queues| ==> queues[w] == Queue(js, w))
    && (forall i :: 0 <= i < |js| ==> js[i].worker < |queues|)
  }

  lemma HoldsAppend<W>(queues: seq<seq<W>>, js: seq<Job<W>>, j: Job<W>)
    requires Holds(queues, js) && j.worker < |queues|
    ensures Holds(queues[j.worker := queues[j.worker] + [j.work]], js + [j])
  {
    forall w | 0 <= w < |queues| ensures queues[j.worker := queues[j.worker] + [j.work]][w] == Queue(js + [j], w) {
      QueueAppend(js, j, w);
    }
  }

  lemma HoldsWithout<W>(queues: seq<seq<W>>, js: seq<Job<W>>, w: nat)
    requires Holds(queues, js) && w < |queues| && queues[w] != []
    ensures Holds(queues[w := queues[w][1..]], Without(js, Head(js, w)))
  {
    forall v | 0 <= v < |queues| ensures queues[w := queues[w][1..]][v] == Queue(Without(js, Head(js, w)), v) {
      QueueWithout(js, w, v);
    }
  }

  lemma EmptyHolds<W>(queues: seq<seq<W>>, js: seq<Job<W>>)
    requires Holds(queues, js) && forall w :: 0 <= w < |queues| ==> queues[w] == []
    ensures js == []
  {
    assert js != [] ==> js[0].worker < |queues| && queues[js[0].worker] == Queue(js, js[0].worker);
  }

  /** The work of the other workers. */
  ghost function Others<W>(js: seq<Job<W>>, w: nat): seq<Job<W>> {
    if js == [] then [] else (if js[0].worker == w then [] else [js[0]]) + Others(js[1..], w)
  }

  lemma {:induction false} OthersQueue<W>(js: seq<Job<W>>, w: nat, v: nat)
    ensures Queue(Others(js, w), v) == if v == w then [] else Queue(js, v)
  {
    if js != [] {
      OthersQueue(js[1..], w, v);
      var rest := Others(js[1..], w);
      assert ([js[0]] + rest)[0] == js[0] && ([js[0]] + rest)[1..] == rest && [] + rest == rest;
      assert [] + Queue(js[1..], v) == Queue(js[1..], v);
    }
  }

  lemma {:induction false} OthersFewer<W>(js: seq<Job<W>>, w: nat)
    ensures |Others(js, w)| <= |js| && (Queue(js, w) != [] ==> |Others(js, w)| < |js|)
    ensures forall i :: 0 <= i < |Others(js, w)| ==> Others(js, w)[i] in js
  {
    if js != [] {
      OthersFewer(js[1..], w);
    }
  }

  lemma FirstWork<W>(j: Job<W>, js: seq<Job<W>>)
    ensures multiset(Works([j] + js)) == multiset{j.work} + multiset(Works(js))
  {
    assert Works([j] + js) == [j.work] + Works(js);
  }

  lemma MoreWork<W>(j: Job<W>, js: seq<Job<W>>, ks: seq<Job<W>>)
    requires multiset(Works(js)) <= multiset(Works(ks))
    ensures multiset(Works(js)) <= multiset(Works([j] + ks)) && multiset(Works([j] + js)) <= multiset(Works([j] + ks))
  {
    FirstWork(j, js);
    FirstWork(j, ks);
  }

  lemma {:induction false} OthersWorks<W>(js: seq<Job<W>>, w: nat)
    ensures multiset(Works(Others(js, w))) <= multiset(Works(js))
  {
    if js != [] {
      var rest := Others(js[1..], w);
      OthersWorks(js[1..], w);
      assert js == [js[0]] + js[1..];
      if js[0].worker == w {
        assert Others(js, w) == rest;
        MoreWork(js[0], rest, js[1..]);
      } else {
        assert Others(js, w) == [js[0]] + rest;
        MoreWork(js[0], rest, js[1..]);
      }
    }
  }

  lemma HoldsOthers<W>(queues: seq<seq<W>>, js: seq<Job<W>>, w: nat)
    requires Holds(queues, js) && w < |queues| && queues[w] != []
    ensures Holds(queues[w := []], Others(js, w)) && |Others(js, w)| < |js|
  {
    forall v | 0 <= v < |queues| ensures queues[w := []][v] == Queue(Others(js, w), v) {
      OthersQueue(js, w, v);
    }
    OthersFewer(js, w);
  }

  /** The work was done in some order, all of it if nothing failed. */
  ghost predicate Outcome<S, W>(step: Stepper<S, W>, s: S, done: seq<W>, all: multiset<W>, s': S, ok: bool) {
    Run(step, s, done) == Some(s') && multiset(done) <= all && (ok ==> multiset(done) == all)
  }

  lemma WorksWithout<W>(js: seq<Job<W>>, p: nat)
    requires p < |js|
    ensures multiset(Works(Without(js, p))) + multiset{js[p].work} == multiset(Works(js))
  {
    var ws := Works(js);
    assert Works(Without(js, p)) == ws[..p] + ws[p + 1..];
    assert ws == ws[..p] + [ws[p]] + ws[p + 1..];
  }

  /** The workers run their queues concurrently: at any time any worker with work left may go next. A
      worker whose work fails stops, and the others go on. `js` is the serial order of the queued work,
      and `done` the order in which it was done. */
  method RunQueues<S(!new), W>(step: Stepper<S, W>, s: S, queues: seq<seq<W>>, ghost js: seq<Job<W>>)
    returns (state: S, ok: bool, ghost done: seq<W>)
    requires Holds(queues, js)
    ensures Outcome(step, s, done, multiset(Works(js)), state, ok)
    ensures Separate(step, js) && Run(step, s, Works(js)).Some? ==> ok && Some(state) == Run(step, s, Works(js))
  {
    ghost var pending := js;
    ghost var valid := Separate(step, js) && Run(step, s, Works(js)).Some?;
    var left := queues;
    state, ok, done := s, true, [];
    while exists w :: 0 <= w < |left| && left[w] != []
      invariant Holds(left, pending)
      invariant Run(step, s, done) == Some(state)
      invariant multiset(done) + multiset(Works(pending)) <= multiset(Works(js))
      invariant ok ==> multiset(done) + multiset(Works(pending)) == multiset(Works(js))
      invariant valid ==> ok && Separate(step, pending) && Run(step, state, Works(pending)) == Run(step, s, Works(js))
      decreases |pending|
    {
      var w :| 0 <= w < |left| && left[w] != [];
      if valid {
        AnyWorkerNext(step, state, pending, w);
      }
      match step(state, left[w][0]) {
        case None =>
          HoldsOthers(left, pending, w);
          OthersWorks(pending, w);
          pending, left, ok := Others(pending, w), left[w := []], false;
        case Some(next) =>
          HoldsWithout(left, pending, w);
          RunSnoc(step, s, done, left[w][0]);
          WorksWithout(pending, Head(pending, w));
          state, done := next, done + [left[w][0]];
          pending := Without(pending, Head(pending, w));
          left := left[w := left[w][1..]];
      }
    }
    EmptyHolds(left, pending);
    assert Works(pending) == [];
  }
}
