/** What a service thread gets done: left alone it handles every event of its worker,
    wherever it was and whatever happened before. */
module Progress {
  import opened EventService
  import opened EventServiceProofs
  import opened Stealing
  import Stopping

  /** Nothing outside keeps thread t from its work: nobody stops it, has its mutex or
      its worker's token, or is between a push to it and the increment; and it has not
      gone to sleep without a signal. */
  ghost predicate Undisturbed(s: State, t: nat) {
    && Inv(s) && InRange(s, t)
    && var x := s.thr[t];
    && !x.stop && !x.mtx.Notifier? && x.pc != Exited && x.pc != SyncWait(false)
    && Unraised(s.prod, t) == 0 && (s.wkr[t].holder == Nowhere || s.wkr[t].holder == By(t))
  }

  /** What it has been told of is at least what is queued. */
  lemma Told(s: State, t: nat)
    requires Undisturbed(s, t)
    ensures var x := s.thr[t]; x.expected + Taken(x.pc) + x.count >= |s.wkr[t].queue| && ThreadOk(x, t, |s.thr|)
  {
    assert Accounted(s, t) && ThreadOk(s.thr[t], t, |s.thr|);
  }

  /** It can always go on, and does not fall asleep while something is queued. */
  lemma GoesOn(s: State, t: nat)
    requires Undisturbed(s, t)
    ensures Enabled(s, Run(t)) && Inv(Next(s, Run(t)))
    ensures var s' := Next(s, Run(t));
            && InRange(s', t) && s'.wkr[t].pushed == s.wkr[t].pushed
            && (s'.thr[t].pc != SyncWait(false) ==> Undisturbed(s', t))
            && (s'.thr[t].pc == SyncWait(false) ==> s.thr[t].pc == SyncReset && s.thr[t].count == 0)
  {
    Told(s, t);
    assert OneHolder(s, t);
    RunKeeps(s, t);
  }

  /** Where it stands in its loop, seen from the work on its own worker. */
  function Lap(pc: Pc): nat {
    match pc
    case Pop(_, level, _) => if level == Prior then 0 else 3
    case Handling(_, level, _, _) => if level == Prior then 0 else 3
    case Take(_, level) => if level == Prior then 1 else 3
    case Credit(_, level, _) => if level == Prior then 4 else 3
    case Return(_, level, _) => if level == Prior then 4 else 3
    case Subtract(_) => 4
    case Fetch(_) => 3
    case _ => 2
  }

  /** The other workers that are still to come in the round. */
  function ToCome(pc: Pc, n: nat): nat {
    if pc.Fetch? then n + 1 else if Lap(pc) == 3 && pc.w < n then n - pc.w else 0
  }

  /** The most steps there are to the next lap, or to the next worker. */
  function Ahead(pc: Pc, queued: nat): nat {
    match pc
    case Take(_, _) => 2 * queued + 6
    case Handling(_, _, _, _) => 2 * queued + 5
    case Pop(_, _, _) => 2 * queued + 4
    case Credit(_, _, _) => 3
    case Return(_, _, _) => 2
    case Subtract(_) => 1
    case Job => 1
    case SyncUnlock(_) => 2
    case SyncUnblock(_) => 3
    case SyncReset => 4
    case SyncBlock => 5
    case SyncWait(_) => 5
    case SyncLock => 6
    case SyncFirst => 7
    case PollCheck(i) => if i < 600 then 8 + 2 * (600 - i) else 8
    case PollReset(i) => if i < 600 then 9 + 2 * (600 - i) else 9
    case Top => 1210
    case _ => 0
  }

  /** The events of the worker that it is at. */
  function Events(s: State, t: nat): nat
    requires t < |s.thr|
  {
    var w := Touched(s.thr[t].pc, t);
    if w < |s.wkr| then |s.wkr[w].queue| else 0
  }

  predicate Falls(lap: nat, toCome: nat, ahead: nat, lap': nat, toCome': nat, ahead': nat) {
    lap' < lap || (lap' == lap && (toCome' < toCome || (toCome' == toCome && ahead' < ahead)))
  }

  /** Laps, workers and steps that are to come. */
  predicate StandsAt(s: State, t: nat, lap: nat, toCome: nat, ahead: nat) {
    && t < |s.thr|
    && var pc := s.thr[t].pc;
       lap == Lap(pc) && toCome == ToCome(pc, |s.thr|) && ahead == Ahead(pc, Events(s, t))
  }

  /** Every step brings it nearer to the end of its worker's queue. */
  lemma ComesNearer(s: State, t: nat, lap: nat, toCome: nat, ahead: nat) returns (lap': nat, toCome': nat, ahead': nat)
    requires Undisturbed(s, t) && s.wkr[t].queue != [] && StandsAt(s, t, lap, toCome, ahead)
    ensures Enabled(s, Run(t))
    ensures var s' := Next(s, Run(t));
            && Undisturbed(s', t) && s'.wkr[t].pushed == s.wkr[t].pushed && StandsAt(s', t, lap', toCome', ahead')
            && Falls(lap, toCome, ahead, lap', toCome', ahead')
  {
    Told(s, t);
    assert OneHolder(s, t);
    GoesOn(s, t);
    var s' := Next(s, Run(t));
    var pc := s'.thr[t].pc;
    lap', toCome', ahead' := Lap(pc), ToCome(pc, |s'.thr|), Ahead(pc, Events(s', t));
  }

  lemma FirstAlone(s: State, t: nat, more: nat)
    requires t < |s.thr| == |s.wkr| && Enabled(s, Run(t))
    ensures |Next(s, Run(t)).thr| == |Next(s, Run(t)).wkr| == |s.thr|
    ensures Alone(s, t, more + 1) == Alone(Next(s, Run(t)), t, more)
  {
  }

  ghost predicate Drained(z: State, t: nat, pushed: seq<Event>) {
    Undisturbed(z, t) && z.wkr[t].queue == [] && z.wkr[t].pushed == pushed
  }

  /** It gets there. */
  lemma {:induction false} Drains(s: State, t: nat, lap: nat, toCome: nat, ahead: nat) returns (steps: nat)
    requires Undisturbed(s, t) && StandsAt(s, t, lap, toCome, ahead)
    ensures |s.thr| == |s.wkr| && Drained(Alone(s, t, steps), t, s.wkr[t].pushed)
    decreases lap, toCome, ahead
  {
    if s.wkr[t].queue == [] {
      steps := 0;
    } else {
      var lap', toCome', ahead' := ComesNearer(s, t, lap, toCome, ahead);
      var more := Drains(Next(s, Run(t)), t, lap', toCome', ahead');
      FirstAlone(s, t, more);
      steps := more + 1;
    }
  }

  lemma LastHandled(z: State, t: nat)
    requires Undisturbed(z, t) && z.wkr[t].queue == [] && Current(z, t) != []
    ensures Enabled(z, Run(t)) && |Next(z, Run(t)).thr| == |z.thr| && |Next(z, Run(t)).wkr| == |z.wkr|
    ensures Next(z, Run(t)).wkr[t].finished == Next(z, Run(t)).wkr[t].pushed == z.wkr[t].pushed
  {
    assert OneHolder(z, t) && InOrder(z, t) && ThreadOk(z.thr[t], t, |z.thr|);
    GoesOn(z, t);
  }

  /** Left alone, a service thread handles every event that has been pushed to its
      worker, in the order of the pushes. */
  lemma HandlesAll(s: State, t: nat) returns (steps: nat)
    requires Undisturbed(s, t)
    ensures |s.thr| == |s.wkr| && var z := Alone(s, t, steps);
            t < |z.wkr| && z.wkr[t].finished == z.wkr[t].pushed == s.wkr[t].pushed
  {
    var pc := s.thr[t].pc;
    steps := Drains(s, t, Lap(pc), ToCome(pc, |s.thr|), Ahead(pc, Events(s, t)));
    var z := Alone(s, t, steps);
    assert OneHolder(z, t) && InOrder(z, t);
    if Current(z, t) != [] {
      LastHandled(z, t);
      Stopping.AloneOn(s, t, steps, 1);
      steps := steps + 1;
    }
  }

  // ------------------------------------------------------------ a post and its event

  /** The machine after so many steps of caller p and none of others. */
  function CallAlone(s: State, p: nat, steps: nat): State
    decreases steps
  {
    if steps == 0 || !Enabled(s, Advance(p)) then s else CallAlone(Next(s, Advance(p)), p, steps - 1)
  }

  lemma {:induction false} CallKeeps(s: State, p: nat, steps: nat)
    requires Inv(s)
    ensures Inv(CallAlone(s, p, steps))
    decreases steps
  {
    if steps > 0 && Enabled(s, Advance(p)) {
      AdvanceKeeps(s, p);
      CallKeeps(Next(s, Advance(p)), p, steps - 1);
    }
  }

  /** A thread told of one event more, and woken if it sleeps. */
  function Woken(x: Thread): Thread { x.(count := x.count + 1, pc := if x.pc.SyncWait? then SyncWait(true) else x.pc) }

  /** The state with one thread and one caller changed. */
  function With(s: State, t: nat, x: Thread, p: nat, ph: Phase): State
    requires t < |s.thr| && p < |s.prod|
  {
    s.(thr := s.thr[t := x], prod := s.prod[p := ph])
  }

  lemma CallStepped(s: State, t: nat, x: Thread, p: nat, ph: Phase, x': Thread, ph': Phase, more: nat)
    requires InRange(s, t) && p < |s.prod| && !ph.Idle? && ph.t == t && CanAdvance(x, ph) && CallStep(|s.thr|, p, x, ph) == (x', ph')
    ensures CallAlone(With(s, t, x, p, ph), p, more + 1) == CallAlone(With(s, t, x', p, ph'), p, more)
  {
    var z := With(s, t, x, p, ph);
    assert Enabled(z, Advance(p));
    assert Next(z, Advance(p)) == With(s, t, x', p, ph');
  }

  /** A caller that is left alone returns, and its thread is told and woken. */
  lemma Wakes(s: State, p: nat, t: nat) returns (steps: nat)
    requires Inv(s) && InRange(s, t) && p < |s.prod| && s.prod[p] == Load(t, false) && s.thr[t].mtx == Nobody
    ensures CallAlone(s, p, steps) == With(s, t, Woken(s.thr[t]), p, Idle)
  {
    var x, n := s.thr[t], |s.thr|;
    assert ThreadOk(x, t, n);
    var y := x.(count := x.count + 1);
    assert s == With(s, t, x, p, Load(t, false));
    if x.blocked {
      steps := 6;
      CallStepped(s, t, x, p, Load(t, false), x, Cas(t, false, x.count), 5);
      CallStepped(s, t, x, p, Cas(t, false, x.count), y, Raised(t, false), 4);
      CallStepped(s, t, y, p, Raised(t, false), y, Seen(t, false), 3);
      CallStepped(s, t, y, p, Seen(t, false), y.(mtx := Notifier(p)), Holding(t, false), 2);
      CallStepped(s, t, y.(mtx := Notifier(p)), p, Holding(t, false), Woken(x).(mtx := Notifier(p)), Leaving(t, false), 1);
      CallStepped(s, t, Woken(x).(mtx := Notifier(p)), p, Leaving(t, false), Woken(x), Idle, 0);
    } else {
      steps := 3;
      CallStepped(s, t, x, p, Load(t, false), x, Cas(t, false, x.count), 2);
      CallStepped(s, t, x, p, Cas(t, false, x.count), y, Raised(t, false), 1);
      CallStepped(s, t, y, p, Raised(t, false), y, Idle, 0);
    }
  }

  /** Nothing outside keeps an event that is posted to worker t now from being handled. */
  ghost predicate Open(s: State, t: nat) {
    && Inv(s) && InRange(s, t)
    && !s.thr[t].stop && s.thr[t].mtx == Nobody && s.thr[t].pc != Exited
    && Unraised(s.prod, t) == 0 && (s.wkr[t].holder == Nowhere || s.wkr[t].holder == By(t))
  }

  /** An event is posted, its producer goes on until it returns, and then the owner of
      the worker goes on, asleep or not: it handles all events, this one last. */
  lemma PostIsHandled(s: State, p: nat, t: nat, ev: Event) returns (calls: nat, steps: nat)
    requires Open(s, t) && p < |s.prod| && s.prod[p] == Idle
    ensures Enabled(s, Post(p, t, ev))
    ensures var told := CallAlone(Next(s, Post(p, t, ev)), p, calls);
            && t < |told.thr| == |told.wkr| && told.prod == s.prod
            && var z := Alone(told, t, steps);
               t < |z.wkr| && z.wkr[t].finished == s.wkr[t].pushed + [ev]
  {
    var posted := Next(s, Post(p, t, ev));
    QuietKeeps(s, Post(p, t, ev));
    calls := Wakes(posted, p, t);
    var told := CallAlone(posted, p, calls);
    CallKeeps(posted, p, calls);
    assert told.prod == s.prod;
    assert ThreadOk(s.thr[t], t, |s.thr|);
    steps := HandlesAll(told, t);
  }
}
