/** What every reachable state of the event service satisfies. */
module EventServiceProofs {
  import opened EventService

  // ------------------------------------------------------------ the invariant

  /** Thread state pc has the token of worker w in its hands. */
  predicate Holds(pc: Pc, w: nat) {
    (pc.Pop? || pc.Handling? || pc.Credit? || pc.Return?) && pc.w == w
  }

  /** Works of worker w that a thread in state pc, having its token, has popped
      and not yet handed on. */
  function HeldWorks(pc: Pc, w: nat): nat {
    if Holds(pc, w) && !(pc.Return? && pc.level == Minor) then pc.works else 0
  }

  /** Works of its own worker that a thread has given the token back for and not
      yet subtracted. */
  function OwnWorks(pc: Pc): nat { if pc.Subtract? then pc.works else 0 }

  /** What the owner has taken from its counter and not yet added. */
  function Taken(pc: Pc): nat { if pc.SyncUnblock? || pc.SyncUnlock? then pc.taken else 0 }

  predicate InLock(pc: Pc) { pc.SyncBlock? || pc.SyncReset? || pc.SyncUnblock? || pc.SyncUnlock? }

  /** On the way from the last poll to sleep. */
  predicate Falling(pc: Pc) {
    pc.SyncFirst? || pc.SyncLock? || pc.SyncBlock? || pc.SyncReset? || pc.SyncWait?
  }

  /** Producer has pushed to worker w and not yet raised its counter. */
  predicate BeforeRaise(ph: Phase, w: nat) { (ph.Load? || ph.Cas?) && ph.t == w && !ph.stopping }

  /** Caller has raised counter t and its notify step is still to come. */
  predicate Notifying(ph: Phase, t: nat) { (ph.Raised? || ph.Seen? || ph.Holding?) && ph.t == t }

  predicate OnMutex(ph: Phase) { ph.Holding? || ph.Leaving? }

  ghost function Unraised(prod: seq<Phase>, w: nat): nat {
    if prod == [] then 0
    else Unraised(prod[..|prod| - 1], w) + (if BeforeRaise(prod[|prod| - 1], w) then 1 else 0)
  }

  /** What thread t's record satisfies by itself. */
  predicate ThreadOk(x: Thread, t: nat, n: nat) {
    var pc := x.pc;
    && (pc.Take? || pc.Pop? || pc.Handling? || pc.Credit? || pc.Return? ==> pc.w < n && (pc.level == Prior <==> pc.w == t))
    && (x.blocked <==> pc.SyncReset? || pc.SyncWait? || pc.SyncUnblock?)
    && (x.mtx == Owner <==> InLock(pc))
    && (pc.PollReset? || Falling(pc) || pc.SyncUnblock? || pc.SyncUnlock? ==> x.expected <= 0)
    && (x.stops > 0 ==> x.stop)
    && (x.stops > 0 && Falling(pc) ==> x.count > 0)
    && (x.stopped > 0 ==> x.stops > 0 && pc != SyncWait(false))
  }

  /** What caller p's phase says about the thread it targets. */
  predicate PhaseOk(ph: Phase, p: nat, x: Thread, n: nat) {
    && (!ph.Idle? ==> ph.t < n)
    && (OnMutex(ph) ==> x.mtx == Notifier(p))
    && (ph.Leaving? && ph.stopping ==> x.pc != SyncWait(false))
    && (!ph.Idle? && !ph.Flag? && !ph.Load? && !ph.Cas? && ph.stopping ==> x.stops > 0)
  }

  /** Works of worker w popped by the holder of its token, and not handed on. */
  ghost function InHand(s: State, w: nat): nat
    requires InRange(s, w)
  {
    var h := s.wkr[w].holder;
    if h.By? && h.t < |s.thr| then HeldWorks(s.thr[h.t].pc, w) else 0
  }

  ghost predicate Accounted(s: State, w: nat)
    requires InRange(s, w)
  {
    var x, k := s.thr[w], s.wkr[w];
    x.expected + Taken(x.pc) + x.count + Unraised(s.prod, w)
    == |k.queue| + k.sworks + InHand(s, w) + OwnWorks(x.pc) + x.stops
  }

  /** The token of worker w is in the workshop or with the one thread that the
      history names. */
  ghost predicate OneHolder(s: State, w: nat)
    requires InRange(s, w)
  {
    var k := s.wkr[w];
    && (k.present <==> k.holder == Nowhere)
    && (k.holder.By? ==> k.holder.t < |s.thr| && Holds(s.thr[k.holder.t].pc, w))
    && (forall i | 0 <= i < |s.thr| && Holds(s.thr[i].pc, w) :: k.holder == By(i))
  }

  /** The event of worker w that is being handled, if there is one. */
  ghost function Current(s: State, w: nat): seq<Event>
    requires InRange(s, w)
  {
    var h := s.wkr[w].holder;
    if h.By? && h.t < |s.thr| && s.thr[h.t].pc.Handling? then [s.thr[h.t].pc.ev] else []
  }

  ghost predicate InOrder(s: State, w: nat)
    requires InRange(s, w)
  {
    var k := s.wkr[w];
    k.pushed == k.started + k.queue && k.started == k.finished + Current(s, w)
  }

  /** A thread asleep without a signal while its counter is raised has a caller
      on the way to notify it; a mutex a caller holds is held by that caller. */
  ghost predicate Watched(s: State, t: nat)
    requires InRange(s, t)
  {
    var x := s.thr[t];
    && (x.pc == SyncWait(false) && x.count > 0 ==> exists p :: 0 <= p < |s.prod| && Notifying(s.prod[p], t))
    && (x.mtx.Notifier? ==> x.mtx.p < |s.prod| && OnMutex(s.prod[x.mtx.p]) && s.prod[x.mtx.p].t == t)
  }

  /** A stop call in phase ph has set the flags and passed the threads before. */
  ghost predicate StopOrder(s: State, p: nat)
    requires p < |s.prod|
  {
    var ph := s.prod[p];
    && (ph.Flag? ==> forall i | 0 <= i < |s.thr| && i < ph.t :: s.thr[i].stop)
    && (!ph.Idle? && !ph.Flag? && ph.stopping ==>
          && (forall i | 0 <= i < |s.thr| :: s.thr[i].stop)
          && (forall i | 0 <= i < |s.thr| && i < ph.t :: s.thr[i].stopped > 0))
  }

  ghost predicate PassedInOrder(s: State) {
    forall i, j | 0 <= i < j < |s.thr| && s.thr[j].stopped > 0 :: s.thr[i].stopped > 0
  }

  ghost predicate Records(s: State) {
    && |s.thr| == |s.wkr| > 0
    && (forall t | 0 <= t < |s.thr| :: ThreadOk(s.thr[t], t, |s.thr|))
    && (forall p | 0 <= p < |s.prod| && !s.prod[p].Idle? ::
          InRange(s, s.prod[p].t) && PhaseOk(s.prod[p], p, s.thr[s.prod[p].t], |s.thr|))
  }

  ghost predicate Inv(s: State) {
    && Records(s)
    && (forall w | 0 <= w < |s.wkr| :: OneHolder(s, w) && InOrder(s, w) && Accounted(s, w))
    && (forall t | 0 <= t < |s.thr| :: Watched(s, t))
    && (forall p | 0 <= p < |s.prod| :: StopOrder(s, p))
    && PassedInOrder(s)
  }

  // ------------------------------------------------------- counting producers

  lemma {:induction false} UnraisedUpdate(prod: seq<Phase>, p: nat, ph: Phase, w: nat)
    requires p < |prod|
    ensures Unraised(prod[p := ph], w) + (if BeforeRaise(prod[p], w) then 1 else 0)
         == Unraised(prod, w) + (if BeforeRaise(ph, w) then 1 else 0)
  {
    var n := |prod| - 1;
    if p < n {
      UnraisedUpdate(prod[..n], p, ph, w);
      assert prod[p := ph][..n] == prod[..n][p := ph];
    } else {
      assert prod[p := ph][..n] == prod[..n];
    }
  }

  lemma {:induction false} UnraisedWitness(prod: seq<Phase>, w: nat)
    requires Unraised(prod, w) > 0
    ensures exists p :: 0 <= p < |prod| && BeforeRaise(prod[p], w)
  {
    var n := |prod| - 1;
    if !BeforeRaise(prod[n], w) {
      UnraisedWitness(prod[..n], w);
      var p :| 0 <= p < n && BeforeRaise(prod[..n][p], w);
      assert BeforeRaise(prod[p], w);
    }
  }

  lemma {:induction false} UnraisedNone(prod: seq<Phase>, w: nat)
    requires forall p | 0 <= p < |prod| :: prod[p] == Idle
    ensures Unraised(prod, w) == 0
  {
    if prod != [] {
      UnraisedNone(prod[..|prod| - 1], w);
    }
  }

  // ---------------------------------------- one step, seen on the two records

  /** The steps with a worker, from the taking of its token to the fetch. */
  predicate AtWork(pc: Pc) {
    pc.Take? || pc.Pop? || pc.Handling? || pc.Credit? || pc.Return? || pc.Subtract? || pc.Fetch?
  }

  lemma StepAtWork(steal: bool, n: nat, t: nat, x: Thread, k: Worker)
    requires CanRun(x) && ThreadOk(x, t, n) && t < n && AtWork(x.pc)
    ensures ThreadOk(ThreadStep(steal, n, t, x, k).0, t, n)
  {
  }

  lemma StepWaiting(steal: bool, n: nat, t: nat, x: Thread, k: Worker)
    requires CanRun(x) && ThreadOk(x, t, n) && t < n && !AtWork(x.pc)
    ensures ThreadOk(ThreadStep(steal, n, t, x, k).0, t, n)
  {
  }

  lemma StepThreadOk(steal: bool, n: nat, t: nat, x: Thread, k: Worker)
    requires CanRun(x) && ThreadOk(x, t, n) && t < n
    ensures ThreadOk(ThreadStep(steal, n, t, x, k).0, t, n)
  {
    if AtWork(x.pc) { StepAtWork(steal, n, t, x, k); } else { StepWaiting(steal, n, t, x, k); }
  }

  /** A thread's step changes nothing that a caller reads, except that it may
      take the mutex when it is free, fall asleep, or empty the counter. */
  lemma StepForCallers(steal: bool, n: nat, t: nat, x: Thread, k: Worker)
    requires CanRun(x) && ThreadOk(x, t, n)
    ensures var x' := ThreadStep(steal, n, t, x, k).0;
            && x'.stop == x.stop && x'.stops == x.stops && x'.stopped == x.stopped
            && (x.mtx.Notifier? <==> x'.mtx.Notifier?)
            && (x.mtx.Notifier? ==> x' == x.(pc := x'.pc, count := x'.count, expected := x'.expected, blocked := x'.blocked))
            && (x'.pc == SyncWait(false) ==> x'.count == 0 && x.mtx == Owner)
  {
  }

  /** The works of a step, seen from its own thread and from the worker. */
  lemma StepBalance(steal: bool, n: nat, t: nat, x: Thread, k: Worker)
    requires CanRun(x) && ThreadOk(x, t, n)
    ensures var (x', k') := ThreadStep(steal, n, t, x, k);
            var w := Touched(x.pc, t);
            var own := (x'.expected + Taken(x'.pc) + x'.count - OwnWorks(x'.pc)) - (x.expected + Taken(x.pc) + x.count - OwnWorks(x.pc));
            var load := (|k'.queue| + k'.sworks + HeldWorks(x'.pc, w)) - (|k.queue| + k.sworks + HeldWorks(x.pc, w));
            && own == (if w == t then load else 0)
            && (w != t ==> load == 0)
  {
  }

  lemma StepToken(steal: bool, n: nat, t: nat, x: Thread, k: Worker)
    requires CanRun(x) && ThreadOk(x, t, n)
    ensures var (x', k') := ThreadStep(steal, n, t, x, k);
            var w := Touched(x.pc, t);
            && (forall v | v != w :: !Holds(x.pc, v) && !Holds(x'.pc, v))
            && (Holds(x'.pc, w) && !Holds(x.pc, w) ==> k.present && !k'.present && k'.holder == By(t))
            && (Holds(x.pc, w) && !Holds(x'.pc, w) ==> k'.present && k'.holder == Nowhere)
            && (Holds(x'.pc, w) == Holds(x.pc, w) ==> k'.present == k.present && k'.holder == k.holder)
  {
  }

  /** The order of the events of a step's worker. */
  lemma StepOrder(steal: bool, n: nat, t: nat, x: Thread, k: Worker)
    requires CanRun(x) && ThreadOk(x, t, n)
    requires k.pushed == k.started + k.queue
    requires Holds(x.pc, Touched(x.pc, t)) ==> k.started == k.finished + (if x.pc.Handling? then [x.pc.ev] else [])
    ensures var (x', k') := ThreadStep(steal, n, t, x, k);
            && k'.pushed == k'.started + k'.queue && k'.pushed == k.pushed
            && (Holds(x.pc, Touched(x.pc, t)) ==> k'.started == k'.finished + (if x'.pc.Handling? then [x'.pc.ev] else []))
            && (!Holds(x.pc, Touched(x.pc, t)) ==> k'.started == k.started && k'.finished == k.finished && !x'.pc.Handling?)
  {
  }

  // ------------------------------------------------ a service thread's steps

  lemma RunRecords(s: State, t: nat)
    requires Inv(s) && Enabled(s, Run(t))
    ensures Records(Next(s, Run(t)))
  {
    var s' := Next(s, Run(t));
    var k := s.wkr[Touched(s.thr[t].pc, t)];
    StepThreadOk(s.steal, |s.thr|, t, s.thr[t], k);
    StepForCallers(s.steal, |s.thr|, t, s.thr[t], k);
    forall p | 0 <= p < |s.prod| && !s.prod[p].Idle?
      ensures InRange(s', s.prod[p].t) && PhaseOk(s.prod[p], p, s'.thr[s.prod[p].t], |s.thr|)
    {
      assert PhaseOk(s.prod[p], p, s.thr[s.prod[p].t], |s.thr|);
    }
  }

  lemma RunHolders(s: State, t: nat, v: nat)
    requires Inv(s) && Enabled(s, Run(t)) && v < |s.wkr|
    ensures OneHolder(Next(s, Run(t)), v) && InOrder(Next(s, Run(t)), v)
  {
    var s' := Next(s, Run(t));
    var w := Touched(s.thr[t].pc, t);
    StepToken(s.steal, |s.thr|, t, s.thr[t], s.wkr[w]);
    assert OneHolder(s, v) && InOrder(s, v) && OneHolder(s, w) && InOrder(s, w);
    StepOrder(s.steal, |s.thr|, t, s.thr[t], s.wkr[w]);
    forall i | 0 <= i < |s.thr| && Holds(s'.thr[i].pc, v)
      ensures s'.wkr[v].holder == By(i)
    {
      assert i != t ==> Holds(s.thr[i].pc, v);
    }
  }

  lemma RunInHand(s: State, t: nat, v: nat)
    requires Inv(s) && Enabled(s, Run(t)) && v < |s.wkr|
    ensures var w := Touched(s.thr[t].pc, t);
            InHand(Next(s, Run(t)), v) == InHand(s, v)
              + (if v == w then HeldWorks(Next(s, Run(t)).thr[t].pc, w) - HeldWorks(s.thr[t].pc, w) else 0)
  {
    var w := Touched(s.thr[t].pc, t);
    StepToken(s.steal, |s.thr|, t, s.thr[t], s.wkr[w]);
    assert OneHolder(s, v);
  }

  lemma RunAccounted(s: State, t: nat, v: nat)
    requires Inv(s) && Enabled(s, Run(t)) && v < |s.wkr|
    ensures Accounted(Next(s, Run(t)), v)
  {
    var w := Touched(s.thr[t].pc, t);
    RunInHand(s, t, v);
    StepBalance(s.steal, |s.thr|, t, s.thr[t], s.wkr[w]);
    StepForCallers(s.steal, |s.thr|, t, s.thr[t], s.wkr[w]);
    assert Accounted(s, v);
    RunFrame(s, t, v);
  }

  /** The records a thread's step leaves alone. */
  lemma RunFrame(s: State, t: nat, v: nat)
    requires Enabled(s, Run(t)) && InRange(s, v)
    ensures var s' := Next(s, Run(t));
            && InRange(s', v) && s'.prod == s.prod
            && (v != t ==> s'.thr[v] == s.thr[v])
            && (v != Touched(s.thr[t].pc, t) ==> s'.wkr[v] == s.wkr[v])
  {
  }

  lemma RunWatched(s: State, t: nat, i: nat)
    requires Inv(s) && Enabled(s, Run(t)) && i < |s.thr|
    ensures Watched(Next(s, Run(t)), i)
  {
    StepForCallers(s.steal, |s.thr|, t, s.thr[t], s.wkr[Touched(s.thr[t].pc, t)]);
    assert Watched(s, i);
  }

  lemma RunKeeps(s: State, t: nat)
    requires Inv(s) && Enabled(s, Run(t))
    ensures Inv(Next(s, Run(t)))
  {
    var s' := Next(s, Run(t));
    RunRecords(s, t);
    forall v | 0 <= v < |s.wkr| ensures OneHolder(s', v) && InOrder(s', v) && Accounted(s', v) {
      RunHolders(s, t, v);
      RunAccounted(s, t, v);
    }
    forall i | 0 <= i < |s.thr| ensures Watched(s', i) { RunWatched(s, t, i); }
    StepForCallers(s.steal, |s.thr|, t, s.thr[t], s.wkr[Touched(s.thr[t].pc, t)]);
    forall p | 0 <= p < |s.prod| ensures StopOrder(s', p) { assert StopOrder(s, p); }
  }

  // --------------------------------------------------- the steps of the callers

  lemma CallOk(n: nat, p: nat, t: nat, x: Thread, ph: Phase)
    requires CanAdvance(x, ph) && ph.t == t < n && ThreadOk(x, t, n) && PhaseOk(ph, p, x, n)
    requires !ph.Flag? && ph.stopping ==> x.stop
    ensures var (x', ph') := CallStep(n, p, x, ph);
            && ThreadOk(x', t, n)
            && (!ph'.Idle? && ph'.t == t ==> PhaseOk(ph', p, x', n))
            && (!ph'.Idle? && ph'.t != t ==> ph'.t < n && (ph'.Flag? || ph'.Load?))
  {
  }

  /** What a caller's step may change of the thread it targets. */
  lemma CallFrame(n: nat, p: nat, x: Thread, ph: Phase)
    requires CanAdvance(x, ph) && !ph.Idle? && PhaseOk(ph, p, x, n)
    ensures var (x', ph') := CallStep(n, p, x, ph);
            && (x'.pc == x.pc || (x.pc.SyncWait? && x'.pc == SyncWait(true)))
            && (x'.mtx == x.mtx || (x.mtx == Nobody && x'.mtx == Notifier(p)) || (x.mtx == Notifier(p) && x'.mtx == Nobody))
            && (x'.stops >= x.stops && x'.stopped >= x.stopped && (x.stop ==> x'.stop))
            && x'.expected == x.expected
            && x'.count - x.count == x'.stops - x.stops + (if BeforeRaise(ph, ph.t) && !BeforeRaise(ph', ph.t) then 1 else 0)
            && (forall v | v != ph.t :: !BeforeRaise(ph, v) && !BeforeRaise(ph', v))
            && (BeforeRaise(ph', ph.t) ==> BeforeRaise(ph, ph.t))
            && (x'.count > x.count ==> Notifying(ph', ph.t))
            && (Notifying(ph, ph.t) && !Notifying(ph', ph.t) ==> !x.blocked || x'.pc != SyncWait(false))
            && (x'.mtx == Notifier(p) && x.mtx != Notifier(p) ==> OnMutex(ph') && ph'.t == ph.t)
            && (x'.mtx == Notifier(p) && OnMutex(ph) ==> OnMutex(ph') && ph'.t == ph.t)
  {
  }

  lemma AdvanceRecords(s: State, p: nat)
    requires Inv(s) && Enabled(s, Advance(p))
    ensures Records(Next(s, Advance(p)))
  {
    var s' := Next(s, Advance(p));
    var t := s.prod[p].t;
    assert StopOrder(s, p);
    CallOk(|s.thr|, p, t, s.thr[t], s.prod[p]);
    CallFrame(|s.thr|, p, s.thr[t], s.prod[p]);
    forall q | 0 <= q < |s.prod| && !s'.prod[q].Idle?
      ensures InRange(s', s'.prod[q].t) && PhaseOk(s'.prod[q], q, s'.thr[s'.prod[q].t], |s.thr|)
    {
      if q != p {
        assert PhaseOk(s.prod[q], q, s.thr[s.prod[q].t], |s.thr|);
      }
    }
  }

  lemma AdvanceWorker(s: State, p: nat, v: nat)
    requires Inv(s) && Enabled(s, Advance(p)) && v < |s.wkr|
    ensures OneHolder(Next(s, Advance(p)), v) && InOrder(Next(s, Advance(p)), v) && Accounted(Next(s, Advance(p)), v)
  {
    AdvanceHolder(s, p, v);
    AdvanceAccounted(s, p, v);
  }

  lemma AdvanceHolder(s: State, p: nat, v: nat)
    requires Inv(s) && Enabled(s, Advance(p)) && v < |s.wkr|
    ensures OneHolder(Next(s, Advance(p)), v) && InOrder(Next(s, Advance(p)), v)
  {
    var s' := Next(s, Advance(p));
    assert OneHolder(s, v) && InOrder(s, v);
    CallFrame(|s.thr|, p, s.thr[s.prod[p].t], s.prod[p]);
    forall i | 0 <= i < |s.thr| && Holds(s'.thr[i].pc, v) ensures s'.wkr[v].holder == By(i) {
      assert Holds(s.thr[i].pc, v);
    }
  }

  lemma AdvanceAccounted(s: State, p: nat, v: nat)
    requires Inv(s) && Enabled(s, Advance(p)) && v < |s.wkr|
    ensures Accounted(Next(s, Advance(p)), v)
  {
    assert OneHolder(s, v) && Accounted(s, v);
    CallFrame(|s.thr|, p, s.thr[s.prod[p].t], s.prod[p]);
    UnraisedUpdate(s.prod, p, Next(s, Advance(p)).prod[p], v);
  }

  lemma AdvanceWatched(s: State, p: nat, i: nat)
    requires Inv(s) && Enabled(s, Advance(p)) && i < |s.thr|
    ensures Watched(Next(s, Advance(p)), i)
  {
    var s' := Next(s, Advance(p));
    var t := s.prod[p].t;
    assert Watched(s, i) && ThreadOk(s.thr[i], i, |s.thr|);
    CallFrame(|s.thr|, p, s.thr[t], s.prod[p]);
    if s'.thr[i].pc == SyncWait(false) && s'.thr[i].count > 0 {
      if Notifying(s'.prod[p], i) {
      } else {
        var q :| 0 <= q < |s.prod| && Notifying(s.prod[q], i);
        assert q != p && Notifying(s'.prod[q], i);
      }
    }
  }

  lemma AdvanceStopOrder(s: State, p: nat)
    requires Inv(s) && Enabled(s, Advance(p))
    ensures var s' := Next(s, Advance(p));
            (forall q | 0 <= q < |s.prod| :: StopOrder(s', q)) && PassedInOrder(s')
  {
    var s' := Next(s, Advance(p));
    var t := s.prod[p].t;
    CallFrame(|s.thr|, p, s.thr[t], s.prod[p]);
    assert StopOrder(s, p);
    forall q | 0 <= q < |s.prod| ensures StopOrder(s', q) {
      assert StopOrder(s, q);
    }
  }

  lemma AdvanceKeeps(s: State, p: nat)
    requires Inv(s) && Enabled(s, Advance(p))
    ensures Inv(Next(s, Advance(p)))
  {
    var s' := Next(s, Advance(p));
    AdvanceRecords(s, p);
    forall v | 0 <= v < |s.wkr| ensures OneHolder(s', v) && InOrder(s', v) && Accounted(s', v) { AdvanceWorker(s, p, v); }
    forall i | 0 <= i < |s.thr| ensures Watched(s', i) { AdvanceWatched(s, p, i); }
    AdvanceStopOrder(s, p);
  }

  /** A post, the start of a stop call, or a failed exchange. */
  predicate Quiet(a: Action) { a.Post? || a.Stop? || a.Retry? }

  lemma QuietFrame(s: State, a: Action)
    requires Inv(s) && Enabled(s, a) && Quiet(a)
    ensures var s' := Next(s, a);
            && s'.thr == s.thr && |s'.wkr| == |s.wkr| && |s'.prod| == |s.prod|
            && (forall q | 0 <= q < |s.prod| && q != a.p :: s'.prod[q] == s.prod[q])
            && (!s'.prod[a.p].Idle? ==> s'.prod[a.p].t < |s.thr|)
            && !OnMutex(s'.prod[a.p]) && !OnMutex(s.prod[a.p])
            && (forall i: nat :: !Notifying(s.prod[a.p], i))
            && (!s'.prod[a.p].Idle? ==> PhaseOk(s'.prod[a.p], a.p, s.thr[s'.prod[a.p].t], |s.thr|))
  {
    assert !s.prod[a.p].Idle? ==> PhaseOk(s.prod[a.p], a.p, s.thr[s.prod[a.p].t], |s.thr|);
  }

  lemma QuietWorker(s: State, a: Action, v: nat)
    requires Inv(s) && Enabled(s, a) && Quiet(a) && v < |s.wkr|
    ensures OneHolder(Next(s, a), v) && InOrder(Next(s, a), v) && Accounted(Next(s, a), v)
  {
    QuietFrame(s, a);
    assert OneHolder(s, v) && InOrder(s, v) && Accounted(s, v);
    UnraisedUpdate(s.prod, a.p, Next(s, a).prod[a.p], v);
  }

  lemma QuietCallers(s: State, a: Action)
    requires Inv(s) && Enabled(s, a) && Quiet(a)
    ensures var s' := Next(s, a);
            && Records(s') && PassedInOrder(s')
            && (forall i | 0 <= i < |s.thr| :: Watched(s', i))
            && (forall q | 0 <= q < |s.prod| :: StopOrder(s', q))
  {
    var s' := Next(s, a);
    QuietFrame(s, a);
    forall i | 0 <= i < |s.thr| ensures Watched(s', i) {
      assert Watched(s, i);
      if p :| 0 <= p < |s.prod| && Notifying(s.prod[p], i) {
        assert Notifying(s'.prod[p], i);
      }
    }
    forall q | 0 <= q < |s.prod| ensures StopOrder(s', q) { assert StopOrder(s, q); }
    forall q | 0 <= q < |s.prod| && !s'.prod[q].Idle?
      ensures InRange(s', s'.prod[q].t) && PhaseOk(s'.prod[q], q, s'.thr[s'.prod[q].t], |s.thr|)
    {
      assert q != a.p && !s.prod[q].Idle? ==> PhaseOk(s.prod[q], q, s.thr[s.prod[q].t], |s.thr|);
    }
  }

  lemma QuietKeeps(s: State, a: Action)
    requires Inv(s) && Enabled(s, a) && Quiet(a)
    ensures Inv(Next(s, a))
  {
    var s' := Next(s, a);
    forall v | 0 <= v < |s.wkr| ensures OneHolder(s', v) && InOrder(s', v) && Accounted(s', v) { QuietWorker(s, a, v); }
    QuietCallers(s, a);
    QuietFrame(s, a);
  }

  // ------------------------------------------------------------------ all runs

  lemma InitInv(s: State)
    requires Init(s)
    ensures Inv(s)
  {
    forall w | 0 <= w < |s.wkr| ensures OneHolder(s, w) && InOrder(s, w) && Accounted(s, w) {
      UnraisedNone(s.prod, w);
    }
  }

  ghost predicate Reachable(s: State) {
    exists run, acts :: IsRun(run, acts) && run[|acts|] == s
  }

  lemma {:induction false} RunInv(run: seq<State>, acts: seq<Action>, i: nat)
    requires IsRun(run, acts) && i < |run|
    ensures Inv(run[i])
  {
    if i == 0 {
      InitInv(run[0]);
    } else {
      RunInv(run, acts, i - 1);
      var s, a := run[i - 1], acts[i - 1];
      match a {
        case Run(t) => RunKeeps(s, t);
        case Advance(p) => AdvanceKeeps(s, p);
        case _ => QuietKeeps(s, a);
      }
    }
  }

  lemma ReachableInv(s: State)
    requires Reachable(s)
    ensures Inv(s)
  {
    var run, acts :| IsRun(run, acts) && run[|acts|] == s;
    RunInv(run, acts, |acts|);
  }

  // ------------------------------------------------------------- main results

  /** Accounting identity. What the owner of worker w expects, with what it has
      taken or can take from its counter and what producers have yet to raise,
      is exactly the events still queued, the stolen works not yet fetched, the
      events popped and not yet handed on, and one for every stop call. Before
      the first stop call the last term is zero. */
  lemma AccountingIdentity(s: State, w: nat)
    requires Reachable(s) && w < |s.thr|
    ensures InRange(s, w)
    ensures var x, k := s.thr[w], s.wkr[w];
            x.expected + Taken(x.pc) + x.count + Unraised(s.prod, w)
            == |k.queue| + k.sworks + InHand(s, w) + OwnWorks(x.pc) + x.stops
    ensures !s.thr[w].stop ==> s.thr[w].stops == 0
  {
    ReachableInv(s);
    assert Accounted(s, w) && ThreadOk(s.thr[w], w, |s.thr|);
  }

  /** No lost event. A thread that sleeps without a signal while its worker has
      events has a producer or stop call for it that has not yet notified. */
  lemma NoLostEvent(s: State, t: nat)
    requires Reachable(s) && t < |s.thr|
    ensures InRange(s, t)
    ensures s.thr[t].pc == SyncWait(false) && s.wkr[t].queue != [] ==>
              exists p :: 0 <= p < |s.prod| && (BeforeRaise(s.prod[p], t) || Notifying(s.prod[p], t))
  {
    ReachableInv(s);
    assert Accounted(s, t) && ThreadOk(s.thr[t], t, |s.thr|) && Watched(s, t);
    if s.thr[t].pc == SyncWait(false) && s.wkr[t].queue != [] {
      if s.thr[t].count > 0 {
        var p :| 0 <= p < |s.prod| && Notifying(s.prod[p], t);
      } else {
        UnraisedWitness(s.prod, t);
      }
    }
  }

  /** No missed wake-up. A thread that sleeps without a signal while its counter
      is positive has a caller past the increment and before the notify, and
      that caller reads or has read `blocked` raised. */
  lemma NoMissedWakeup(s: State, t: nat)
    requires Reachable(s) && t < |s.thr|
    ensures s.thr[t].pc == SyncWait(false) && s.thr[t].count > 0 ==>
              s.thr[t].blocked && exists p :: 0 <= p < |s.prod| && Notifying(s.prod[p], t)
  {
    ReachableInv(s);
    assert ThreadOk(s.thr[t], t, |s.thr|) && Watched(s, t);
  }

  /** Caller steps left to the notify. */
  function Distance(ph: Phase): nat {
    match ph
    case Raised(_, _) => 3
    case Seen(_, _) => 2
    case Holding(_, _) => 1
    case _ => 0
  }

  /** Every step of a caller that has yet to notify a sleeping thread brings the
      signal nearer, and it is never stuck: if it cannot step, another caller
      has the mutex, and that one's next step signals or frees the mutex. */
  lemma NotifierProgress(s: State, t: nat, p: nat)
    requires Reachable(s) && t < |s.thr| && s.thr[t].pc == SyncWait(false)
    requires p < |s.prod| && Notifying(s.prod[p], t)
    ensures Enabled(s, Advance(p)) ==>
              var s' := Next(s, Advance(p));
              || s'.thr[t].pc == SyncWait(true)
              || (Notifying(s'.prod[p], t) && Distance(s'.prod[p]) < Distance(s.prod[p]) && s'.thr[t].pc == SyncWait(false))
    ensures !Enabled(s, Advance(p)) ==>
              && s.prod[p].Seen? && s.thr[t].mtx.Notifier?
              && var q := s.thr[t].mtx.p;
              && Enabled(s, Advance(q))
              && var s' := Next(s, Advance(q));
              || s'.thr[t].pc == SyncWait(true)
              || (s'.thr[t].mtx == Nobody && s'.thr[t].pc == SyncWait(false) && s'.prod[p] == s.prod[p] && Enabled(s', Advance(p)))
  {
    ReachableInv(s);
    assert ThreadOk(s.thr[t], t, |s.thr|) && Watched(s, t);
    assert PhaseOk(s.prod[p], p, s.thr[t], |s.thr|);
  }

  /** A stop call that has returned leaves no thread asleep without a signal: it
      has passed the last thread, hence all of them. */
  lemma StopLeavesNoneAsleep(s: State, t: nat)
    requires Reachable(s) && t < |s.thr| && s.thr[|s.thr| - 1].stopped > 0
    ensures s.thr[t].pc != SyncWait(false) && s.thr[t].stop
  {
    ReachableInv(s);
    assert ThreadOk(s.thr[t], t, |s.thr|);
  }

  /** Strand guarantee. The token of a worker is in the workshop or in the hands
      of exactly one thread, and the events of the worker are handled one at a
      time in the order in which they were pushed. */
  lemma StrandGuarantee(s: State, w: nat)
    requires Reachable(s) && w < |s.thr|
    ensures InRange(s, w)
    ensures s.wkr[w].present ==> forall i | 0 <= i < |s.thr| :: !Holds(s.thr[i].pc, w)
    ensures !s.wkr[w].present ==>
              exists i :: 0 <= i < |s.thr| && Holds(s.thr[i].pc, w)
                          && forall j | 0 <= j < |s.thr| && Holds(s.thr[j].pc, w) :: j == i
    ensures forall i | 0 <= i < |s.thr| && s.thr[i].pc.Handling? && s.thr[i].pc.w == w ::
              s.wkr[w].pushed == s.wkr[w].finished + [s.thr[i].pc.ev] + s.wkr[w].queue
    ensures (forall i | 0 <= i < |s.thr| :: !(s.thr[i].pc.Handling? && s.thr[i].pc.w == w)) ==>
              s.wkr[w].pushed == s.wkr[w].finished + s.wkr[w].queue
  {
    ReachableInv(s);
    assert OneHolder(s, w) && InOrder(s, w);
    forall i | 0 <= i < |s.thr| && s.thr[i].pc.Handling? && s.thr[i].pc.w == w
      ensures s.wkr[w].pushed == s.wkr[w].finished + [s.thr[i].pc.ev] + s.wkr[w].queue
    {
      assert Holds(s.thr[i].pc, w);
    }
    if !s.wkr[w].present {
      var i := s.wkr[w].holder.t;
      assert Holds(s.thr[i].pc, w);
    }
  }
}
