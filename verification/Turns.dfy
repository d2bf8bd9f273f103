/** What one thread does without interference: with a worker whose token it holds,
    and in its turn over its prior workers. */
module Turns {
  import opened EventService

  // ------------------------------------------------------------------- one worker

  /** `worker`, with its place in the workshop and the events it has handled. */
  class EventWorker {
    var present: bool
    var que: seq<Event>
    var sworks: nat
    var pworks: nat
    var mworks: nat
    ghost var handled: seq<Event>

    constructor ()
      ensures present && que == [] && sworks == pworks == mworks == 0 && handled == []
    {
      present, que, sworks, pworks, mworks, handled := true, [], 0, 0, 0, [];
    }

    method FetchSworks() returns (r: nat)
      modifies this`sworks
      ensures r == old(sworks) && sworks == 0
    {
      r := sworks;
      sworks := 0;
    }

    /** Handles all events in order. The works of a thief are owed to the owner. */
    method Work(level: Level) returns (works: nat)
      modifies this`que, this`sworks, this`pworks, this`mworks, this`handled
      ensures que == [] && works == |old(que)| && handled == old(handled) + old(que)
      ensures level == Prior ==> pworks == old(pworks) + works && mworks == old(mworks) && sworks == old(sworks)
      ensures level == Minor ==> mworks == old(mworks) + works && sworks == old(sworks) + works && pworks == old(pworks)
    {
      works := 0;
      while que != []
        invariant works + |que| == |old(que)| && handled + que == old(handled) + old(que)
        invariant pworks == old(pworks) && mworks == old(mworks) && sworks == old(sworks)
        decreases |que|
      {
        handled := handled + [que[0]];
        que := que[1..];
        works := works + 1;
      }
      match level {
        case Prior => pworks := pworks + works;
        case Minor =>
          mworks := mworks + works;
          if works > 0 { sworks := sworks + works; }
      }
    }

    /** The events that a thread that comes now would handle. */
    function Ready(): nat
      reads this
    {
      if present then |que| else 0
    }

    /** `do_work`: nothing if another thread has the token. */
    method DoWork(level: Level) returns (works: nat)
      modifies this
      ensures works == old(Ready()) && present == old(present)
      ensures que == (if present then [] else old(que))
      ensures handled == if present then old(handled) + old(que) else old(handled)
      ensures sworks == old(sworks) + if level == Minor then works else 0
    {
      works := 0;
      if present {
        present := false;
        works := Work(level);
        present := true;
      }
    }
  }

  /** Thread t of n makes so many steps while nobody else does. */
  function Alone(steal: bool, n: nat, t: nat, x: Thread, k: Worker, steps: nat): (Thread, Worker)
    decreases steps
  {
    if steps == 0 || !CanRun(x) then (x, k)
    else
      var (x', k') := ThreadStep(steal, n, t, x, k);
      Alone(steal, n, t, x', k', steps - 1)
  }

  lemma {:induction false} AloneTwice(steal: bool, n: nat, t: nat, x: Thread, k: Worker, a: nat, b: nat)
    ensures var (x', k') := Alone(steal, n, t, x, k, a); Alone(steal, n, t, x, k, a + b) == Alone(steal, n, t, x', k', b)
    decreases a
  {
    if a > 0 && CanRun(x) {
      var (x', k') := ThreadStep(steal, n, t, x, k);
      AloneTwice(steal, n, t, x', k', a - 1, b);
    }
  }

  /** Popping and handling all events of a worker. */
  lemma {:induction false} PopAll(steal: bool, n: nat, t: nat, x: Thread, k: Worker, w: nat, level: Level, works: nat)
    requires x.pc == Pop(w, level, works)
    ensures Alone(steal, n, t, x, k, 2 * |k.queue| + 1)
         == (x.(pc := Credit(w, level, works + |k.queue|)),
             k.(queue := [], started := k.started + k.queue, finished := k.finished + k.queue))
    decreases |k.queue|
  {
    if k.queue != [] {
      var ev, rest := k.queue[0], k.queue[1..];
      var x1, k1 := x.(pc := Handling(w, level, works + 1, ev)), k.(queue := rest, started := k.started + [ev]);
      var x2, k2 := x.(pc := Pop(w, level, works + 1)), k1.(finished := k.finished + [ev]);
      assert ThreadStep(steal, n, t, x, k) == (x1, k1);
      assert ThreadStep(steal, n, t, x1, k1) == (x2, k2);
      var more := 2 * |rest| + 1;
      assert Alone(steal, n, t, x, k, more + 2) == Alone(steal, n, t, x1, k1, more + 1);
      assert Alone(steal, n, t, x1, k1, more + 1) == Alone(steal, n, t, x2, k2, more);
      PopAll(steal, n, t, x2, k2, w, level, works + 1);
      assert k.started + [ev] + rest == k.started + k.queue;
      assert k.finished + [ev] + rest == k.finished + k.queue;
    } else {
      assert Alone(steal, n, t, x, k, 1) == Alone(steal, n, t, x.(pc := Credit(w, level, works)), k, 0);
      assert k.started + [] == k.started && k.finished + [] == k.finished;
    }
  }

  /** In the machine, a thread that takes a token and is left alone does to the
      worker what `Work` does, and puts the token back. */
  lemma TurnAlone(steal: bool, n: nat, t: nat, x: Thread, k: Worker, w: nat, level: Level)
    requires x.pc == Take(w, level) && k.present
    ensures Alone(steal, n, t, x, k, 2 * |k.queue| + 4)
         == (x.(pc := if level == Prior then Subtract(|k.queue|) else NextMinor(steal, n, t, w + 1)),
             k.(present := true, holder := Nowhere, queue := [],
                sworks := if level == Minor then k.sworks + |k.queue| else k.sworks,
                started := k.started + k.queue, finished := k.finished + k.queue))
  {
    var x1, k1 := x.(pc := Pop(w, level, 0)), k.(present := false, holder := By(t));
    var m := 2 * |k.queue| + 1;
    assert Alone(steal, n, t, x, k, m + 3) == Alone(steal, n, t, x1, k1, m + 2);
    AloneTwice(steal, n, t, x1, k1, m, 2);
    PopAll(steal, n, t, x1, k1, w, level, 0);
    var (x2, k2) := Alone(steal, n, t, x1, k1, m);
    PutBack(steal, n, t, x2, k2, w, level, |k.queue|);
  }

  /** Crediting the works and putting the token back. */
  lemma PutBack(steal: bool, n: nat, t: nat, x: Thread, k: Worker, w: nat, level: Level, works: nat)
    requires x.pc == Credit(w, level, works)
    ensures Alone(steal, n, t, x, k, 2)
         == (x.(pc := if level == Prior then Subtract(works) else NextMinor(steal, n, t, w + 1)),
             k.(present := true, holder := Nowhere, sworks := if level == Minor then k.sworks + works else k.sworks))
  {
    var (x', k') := ThreadStep(steal, n, t, x, k);
    assert Alone(steal, n, t, x, k, 2) == Alone(steal, n, t, x', k', 1);
    var (x'', k'') := ThreadStep(steal, n, t, x', k');
    assert Alone(steal, n, t, x', k', 1) == Alone(steal, n, t, x'', k'', 0);
  }

  // ---------------------------------------------------------- several prior workers

  function Sum(xs: seq<nat>): nat {
    if xs == [] then 0 else Sum(xs[..|xs| - 1]) + xs[|xs| - 1]
  }

  /** What is taken off twice: the running total is subtracted after every worker,
      so that work done early in the turn is subtracted again with every later one. */
  function Overcount(works: seq<nat>): nat {
    if works == [] then 0 else Overcount(works[..|works| - 1]) + Sum(works[..|works| - 1])
  }

  /** What each worker has ready, and what others have done for it. */
  function Works(priors: seq<EventWorker>): (r: seq<nat>)
    reads priors
    ensures |r| == |priors| && forall k | 0 <= k < |r| :: r[k] == priors[k].Ready()
  {
    if priors == [] then [] else Works(priors[..|priors| - 1]) + [priors[|priors| - 1].Ready()]
  }

  function Stolen(priors: seq<EventWorker>): (r: seq<nat>)
    reads priors
    ensures |r| == |priors| && forall k | 0 <= k < |r| :: r[k] == priors[k].sworks
  {
    if priors == [] then [] else Stolen(priors[..|priors| - 1]) + [priors[|priors| - 1].sworks]
  }

  /** The loop over the prior workers of a thread, which nobody else touches
      meanwhile. */
  method Sweep(priors: seq<EventWorker>, expected: int) returns (left: int, pworks: nat)
    requires forall j, k | 0 <= j < k < |priors| :: priors[j] != priors[k]
    modifies priors
    ensures pworks == Sum(old(Works(priors)))
    ensures left == expected - Sum(old(Works(priors))) - Sum(old(Stolen(priors))) - Overcount(old(Works(priors)))
    ensures forall k | 0 <= k < |priors| :: Swept(priors[k])
  {
    ghost var works, sworks := Works(priors), Stolen(priors);
    left, pworks := expected, 0;
    var n := 0;
    while n < |priors|
      invariant 0 <= n <= |priors| && pworks == Sum(works[..n])
      invariant left == expected - Sum(works[..n]) - Sum(sworks[..n]) - Overcount(works[..n])
      invariant forall k | 0 <= k < n :: Swept(priors[k])
      invariant forall k | n <= k < |priors| :: Holds(priors[k], works[k], sworks[k])
    {
      NextSums(works, sworks, n);
      assert Holds(priors[n], works[n], sworks[n]);
      left, pworks := TakeOff(priors[n], left, pworks);
      n := n + 1;
    }
    assert works[..n] == works && sworks[..n] == sworks;
  }

  predicate Swept(w: EventWorker)
    reads w
  {
    w.Ready() == 0 && w.sworks == 0
  }

  predicate Holds(w: EventWorker, works: nat, sworks: nat)
    reads w
  {
    w.Ready() == works && w.sworks == sworks
  }

  lemma NextSums(works: seq<nat>, sworks: seq<nat>, n: nat)
    requires n < |works| == |sworks|
    ensures Sum(works[..n + 1]) == Sum(works[..n]) + works[n] && Sum(sworks[..n + 1]) == Sum(sworks[..n]) + sworks[n]
    ensures Overcount(works[..n + 1]) == Overcount(works[..n]) + Sum(works[..n])
  {
    assert works[..n + 1][..n] == works[..n] && sworks[..n + 1][..n] == sworks[..n];
  }

  /** The body of the loop. */
  method TakeOff(w: EventWorker, left: int, pworks: nat) returns (left': int, pworks': nat)
    modifies w
    ensures pworks' == pworks + old(w.Ready()) && left' == left - pworks' - old(w.sworks)
    ensures Swept(w)
  {
    var works := w.DoWork(Prior);
    pworks' := pworks + works;
    left' := left - pworks';
    var stolen := w.FetchSworks();
    left' := left' - stolen;
  }

  lemma {:induction false} SumZero(xs: seq<nat>)
    ensures Sum(xs) == 0 <==> forall k | 0 <= k < |xs| :: xs[k] == 0
  {
    if xs != [] {
      var front := xs[..|xs| - 1];
      SumZero(front);
      assert xs == front + [xs[|xs| - 1]];
    }
  }

  /** The turn takes off just the work done if and only if no worker but the last
      one has an event ready when it starts. */
  lemma {:induction false} ExactWhenLast(works: seq<nat>)
    ensures Overcount(works) == 0 <==> forall k | 0 <= k < |works| - 1 :: works[k] == 0
  {
    if works != [] {
      var front := works[..|works| - 1];
      ExactWhenLast(front);
      SumZero(front);
      assert forall k | 0 <= k < |front| :: front[k] == works[k];
    }
  }

  /** Two prior workers, the first with one event: that is taken off twice. */
  lemma TakenOffTwice()
    ensures Overcount([1, 0]) == 1 && Sum([1, 0]) == 1
  {
    assert [1, 0][..1] == [1] && [1][..0] == [];
    assert Sum([1]) == 1 && Overcount([1]) == 0;
  }

  /** A thread takes off just the work done, whatever that is, if and only if it
      has one prior worker at most, which is the default. */
  lemma ExactForAll(n: nat)
    ensures (forall works: seq<nat> | |works| == n :: Overcount(works) == 0) <==> n <= 1
  {
    forall works: seq<nat> | |works| == n && n <= 1 ensures Overcount(works) == 0 { ExactWhenLast(works); }
    if n > 1 {
      var works := seq(n, k => 1);
      ExactWhenLast(works);
      assert works[0] == 1;
    }
  }
}
