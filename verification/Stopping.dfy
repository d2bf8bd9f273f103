/** What a call of `stop` does on its way, and that a thread it has told to stop does. */
module Stopping {
  import opened EventService
  import opened Stealing

  // --------------------------------------------------------------------- the caller

  /** The phases of caller p along its own steps, and the threads it touched. Others
      may change those in between, and any compare-exchange may fail. */
  ghost predicate Calls(n: nat, p: nat, ps: seq<Phase>, xs: seq<Thread>) {
    |ps| == |xs| + 1 && forall i | 0 <= i < |xs| :: Advances(n, p, xs[i], ps[i], ps[i + 1])
  }

  predicate Advances(n: nat, p: nat, x: Thread, a: Phase, b: Phase) {
    (CanAdvance(x, a) && b == CallStep(n, p, x, a).1) || (a.Cas? && b == a.(stale := x.count))
  }

  datatype Deed = Flagged(t: nat) | Counted(t: nat)

  /** The flags that are set and the counters that are raised by a step. */
  function DeedOf(a: Phase, b: Phase): seq<Deed> {
    if a.Flag? then [Flagged(a.t)] else if a.Cas? && b.Raised? then [Counted(a.t)] else []
  }

  function Deeds(ps: seq<Phase>): seq<Deed> {
    if |ps| <= 1 then [] else Deeds(ps[..|ps| - 1]) + DeedOf(ps[|ps| - 2], ps[|ps| - 1])
  }

  function Flags(n: nat): (r: seq<Deed>)
    ensures |r| == n && forall i | 0 <= i < n :: r[i] == Flagged(i)
  {
    if n == 0 then [] else Flags(n - 1) + [Flagged(n - 1)]
  }

  function Counts(n: nat): (r: seq<Deed>)
    ensures |r| == n && forall i | 0 <= i < n :: r[i] == Counted(i)
  {
    if n == 0 then [] else Counts(n - 1) + [Counted(n - 1)]
  }

  /** What a stop call has done by the time it is in a phase. */
  predicate StopSoFar(n: nat, ph: Phase, done: seq<Deed>) {
    match ph
    case Flag(t) => t < n && done == Flags(t)
    case Load(t, g) => g && t < n && done == Flags(n) + Counts(t)
    case Cas(t, g, _) => g && t < n && done == Flags(n) + Counts(t)
    case Idle => done == Flags(n) + Counts(n)
    case _ => ph.stopping && ph.t < n && done == Flags(n) + Counts(ph.t + 1)
  }

  lemma StopNext(n: nat, p: nat, x: Thread, a: Phase, b: Phase, done: seq<Deed>)
    requires StopSoFar(n, a, done)
    requires Advances(n, p, x, a, b)
    ensures StopSoFar(n, b, done + DeedOf(a, b))
  {
    assert done + [] == done;
    if a.Flag? { assert Flags(n) + Counts(0) == Flags(n); }
    if a.Cas? && b.Raised? { assert Flags(n) + Counts(a.t) + [Counted(a.t)] == Flags(n) + Counts(a.t + 1); }
  }

  lemma CallsBefore(n: nat, p: nat, ps: seq<Phase>, xs: seq<Thread>)
    requires Calls(n, p, ps, xs) && |xs| > 0
    ensures var m := |xs|;
            && Calls(n, p, ps[..m], xs[..m - 1]) && Deeds(ps) == Deeds(ps[..m]) + DeedOf(ps[m - 1], ps[m])
            && Advances(n, p, xs[m - 1], ps[m - 1], ps[m])
  {
    var m := |xs|;
    forall i | 0 <= i < m - 1 ensures Advances(n, p, xs[..m - 1][i], ps[..m][i], ps[..m][i + 1]) {
      assert Advances(n, p, xs[i], ps[i], ps[i + 1]);
    }
  }

  lemma {:induction false} StopsSoFar(n: nat, p: nat, ps: seq<Phase>, xs: seq<Thread>)
    requires n > 0 && Calls(n, p, ps, xs) && ps[0] == Flag(0)
    ensures StopSoFar(n, ps[|xs|], Deeds(ps))
    decreases |xs|
  {
    var m := |xs|;
    if m > 0 {
      CallsBefore(n, p, ps, xs);
      StopsSoFar(n, p, ps[..m], xs[..m - 1]);
      StopNext(n, p, xs[m - 1], ps[m - 1], ps[m], Deeds(ps[..m]));
    }
  }

  /** A stop call sets every flag, in order, and then raises every counter once, in
      order, before it returns. */
  lemma StopTellsAll(n: nat, p: nat, ps: seq<Phase>, xs: seq<Thread>)
    requires n > 0 && Calls(n, p, ps, xs) && ps[0] == Flag(0) && ps[|xs|] == Idle
    ensures Deeds(ps) == Flags(n) + Counts(n)
  {
    StopsSoFar(n, p, ps, xs);
  }

  /** What a producer has done by the time it is in a phase. */
  predicate PostSoFar(w: nat, ph: Phase, done: seq<Deed>) {
    && (ph.Idle? || (!ph.Flag? && ph.t == w && !ph.stopping))
    && done == if ph.Load? || ph.Cas? then [] else [Counted(w)]
  }

  lemma PostNext(n: nat, p: nat, w: nat, x: Thread, a: Phase, b: Phase, done: seq<Deed>)
    requires PostSoFar(w, a, done) && Advances(n, p, x, a, b)
    ensures PostSoFar(w, b, done + DeedOf(a, b))
  {
    assert done + [] == done;
  }

  /** A producer that has pushed an event raises the counter of the worker's owner once,
      and touches nothing else. */
  lemma {:induction false} PostTellsOwner(n: nat, p: nat, w: nat, ps: seq<Phase>, xs: seq<Thread>)
    requires Calls(n, p, ps, xs) && ps[0] == Load(w, false)
    ensures PostSoFar(w, ps[|xs|], Deeds(ps))
    decreases |xs|
  {
    var m := |xs|;
    if m > 0 {
      CallsBefore(n, p, ps, xs);
      PostTellsOwner(n, p, w, ps[..m], xs[..m - 1]);
      PostNext(n, p, w, xs[m - 1], ps[m - 1], ps[m], Deeds(ps[..m]));
    }
  }

  // --------------------------------------------------------------------- the thread

  /** A thread ends its loop at the top of it or in front of its job, if and only if
      its flag is set. */
  lemma Exits(steal: bool, n: nat, t: nat, x: Thread, k: Worker)
    requires CanRun(x)
    ensures ThreadStep(steal, n, t, x, k).0.pc == Exited <==> x.stop && (x.pc == Top || x.pc == Job)
    ensures ThreadStep(steal, n, t, x, k).0.stop == x.stop
  {
  }

  /** Once the flag of a thread is set, it never starts another turn. */
  lemma NoTurnAfterStop(steal: bool, n: nat, t: nat, xs: seq<Thread>, ks: seq<Worker>, i: nat)
    requires Follows(steal, n, t, xs, ks) && i < |ks| && xs[i].stop
    ensures xs[i + 1].pc != Take(t, Prior)
  {
  }

  lemma {:induction false} AloneOn(s: State, t: nat, a: nat, b: nat)
    requires t < |s.thr| == |s.wkr|
    ensures Alone(s, t, a + b) == Alone(Alone(s, t, a), t, b)
    decreases a
  {
    if !Enabled(s, Run(t)) {
    } else if a > 0 {
      AloneOn(Next(s, Run(t)), t, a - 1, b);
    }
  }

  lemma {:induction false} FlagStays(s: State, t: nat, a: nat)
    requires t < |s.thr| == |s.wkr| && s.thr[t].stop
    ensures Alone(s, t, a).thr[t].stop
    decreases a
  {
    if a > 0 && Enabled(s, Run(t)) { FlagStays(Next(s, Run(t)), t, a - 1); }
  }

  /** It is not asleep, or is about to be woken: a stop call that has passed a thread
      leaves it like this. */
  predicate Awake(x: Thread) {
    && (x.pc.SyncFirst? || x.pc.SyncLock? || x.pc.SyncBlock? || x.pc.SyncReset? || x.pc.SyncWait? ==> x.count != 0)
    && (x.pc.SyncLock? || x.pc.SyncWait? ==> x.mtx == Nobody)
  }

  predicate InRound(pc: Pc) {
    pc == Top || pc.Fetch? || ((pc.Take? || Working(pc)) && pc.level == Minor)
  }

  /** The most steps there are to the round over the other workers, or to the end. */
  function Far(pc: Pc, queued: nat): nat {
    if InRound(pc) then 0 else
    match pc
    case Return(_, _, _) => 2
    case Credit(_, _, _) => 3
    case Pop(_, _, _) => 4 + 2 * queued
    case Handling(_, _, _, _) => 5 + 2 * queued
    case Take(_, _) => 5 + 2 * queued
    case SyncUnlock(_) => 2
    case SyncUnblock(_) => 3
    case SyncReset => 4
    case SyncBlock => 5
    case SyncWait(_) => 5
    case SyncLock => 6
    case SyncFirst => 7
    case PollCheck(i) => if i < 100 then 208 - 2 * i else 8
    case PollReset(i) => if i < 100 then 209 - 2 * i else 9
    case Subtract(_) => 1
    case Job => 1
    case _ => 0
  }

  lemma Nearer(steal: bool, n: nat, t: nat, x: Thread, k: Worker, queued: nat)
    requires x.stop && Awake(x) && !InRound(x.pc) && x.pc != Exited
    ensures CanRun(x)
    ensures var (x', k') := ThreadStep(steal, n, t, x, k);
            && Awake(x') && x'.stop && (x'.pc.Take? || Working(x'.pc) ==> x'.pc.w == Touched(x.pc, t) && x.pc.w == x'.pc.w)
            && Far(x'.pc, if x'.pc.Take? || Working(x'.pc) then |k'.queue| else queued) < Far(x.pc, |k.queue|)
  {
  }

  /** The steps that are left of thread t, whatever it does in them. */
  function Left(s: State, t: nat): nat
    requires t < |s.thr| == |s.wkr| && Touched(s.thr[t].pc, t) < |s.wkr|
  {
    Far(s.thr[t].pc, |s.wkr[Touched(s.thr[t].pc, t)].queue|)
  }

  lemma LeftFalls(s: State, t: nat)
    requires t < |s.thr| == |s.wkr| && Touched(s.thr[t].pc, t) < |s.wkr|
    requires var x := s.thr[t]; x.stop && Awake(x) && !InRound(x.pc) && x.pc != Exited
    ensures Enabled(s, Run(t))
    ensures var next := Next(s, Run(t)); var x := next.thr[t];
            x.stop && Awake(x) && Touched(x.pc, t) < |s.wkr| && Left(next, t) < Left(s, t)
  {
    var next := Next(s, Run(t));
    Nearer(s.steal, |s.thr|, t, s.thr[t], s.wkr[Touched(s.thr[t].pc, t)], |next.wkr[Touched(next.thr[t].pc, t)].queue|);
  }

  /** A thread whose flag is set and that is left alone exits, after some number of its
      own steps. */
  lemma {:induction false} Leaves(s: State, t: nat) returns (steps: nat)
    requires t < |s.thr| == |s.wkr| && s.thr[t].stop && Awake(s.thr[t])
    requires Touched(s.thr[t].pc, t) < |s.wkr|
    ensures Alone(s, t, steps).thr[t].pc == Exited
    decreases Left(s, t)
  {
    var x := s.thr[t];
    if x.pc == Exited {
      steps := 0;
    } else if InRound(x.pc) {
      steps := LeavesRound(s, t);
    } else {
      LeftFalls(s, t);
      var more := Leaves(Next(s, Run(t)), t);
      steps := more + 1;
    }
  }

  lemma LeavesRound(s: State, t: nat) returns (steps: nat)
    requires t < |s.thr| == |s.wkr| && s.thr[t].stop && InRound(s.thr[t].pc) && Touched(s.thr[t].pc, t) < |s.wkr|
    ensures Alone(s, t, steps).thr[t].pc == Exited
  {
    var round := RoundEnds(s, t);
    FlagStays(s, t, round);
    AloneOn(s, t, round, 1);
    steps := round + 1;
  }
}
