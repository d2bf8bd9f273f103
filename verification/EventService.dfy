/** The event service: service threads, workers, producers and `stop`, as a
    machine whose steps are the single atomic actions of the program.

    Every service thread owns one worker (the default of `ev_service`), and any
    thread may steal another's worker by taking its token out of the workshop.
    Any number of producers run at the same time: handlers that post events are
    producers too. A worker's event queue is a sequence here; module Refinement
    proves that the lock-free queue is one. */
module EventService {

  type Event = nat

  const AGGRESSIVE_POLLS: nat := 100
  const ALL_POLLS: nat := 600

  datatype Level = Prior | Minor

  /** Where a service thread stands in its work loop. */
  datatype Pc =
    | Top                                           // tests the stop flag, then the owed work
    | PollReset(k: nat)                             // about to reset the counter, poll k
    | PollCheck(k: nat)                             // has reset it, about to decide
    | SyncFirst                                     // first reset of the blocking wait
    | SyncLock                                      // about to lock the mutex
    | SyncBlock                                     // about to raise `blocked`
    | SyncReset                                     // about to reset under the mutex
    | SyncWait(signalled: bool)                     // parked on the condition variable
    | SyncUnblock(taken: nat)                       // about to lower `blocked`
    | SyncUnlock(taken: nat)                        // about to unlock the mutex
    | Job                                           // about to test the stop flag
    | Take(w: nat, level: Level)                    // about to take the token of w
    | Pop(w: nat, level: Level, works: nat)         // about to pop an event of w
    | Handling(w: nat, level: Level, works: nat, ev: Event)
    | Credit(w: nat, level: Level, works: nat)      // saw the queue empty
    | Return(w: nat, level: Level, works: nat)      // about to put the token back
    | Subtract(works: nat)                          // about to subtract its own works
    | Fetch(works: nat)                             // about to fetch the stolen works
    | Exited

  /** Where a caller of `pri_async` or of `stop` stands. Its `synchronized_incr`
      takes the phases Load to Leaving; `stopping` tells the two callers apart. */
  datatype Phase =
    | Idle
    | Load(t: nat, stopping: bool)                  // about to load the counter
    | Cas(t: nat, stopping: bool, stale: nat)       // about to compare and exchange it
    | Raised(t: nat, stopping: bool)                // about to read `blocked`
    | Seen(t: nat, stopping: bool)                  // saw it raised, about to lock
    | Holding(t: nat, stopping: bool)               // about to notify
    | Leaving(t: nat, stopping: bool)               // about to unlock
    | Flag(t: nat)                                  // `stop` is about to set flag t

  datatype Mutex = Nobody | Owner | Notifier(p: nat)

  /** A service thread with its counter, mutex and stop flag. `stops` and
      `stopped` are history: how many stop calls have raised its counter, and
      how many have finished with this thread. */
  datatype Thread = Thread(
    pc: Pc, expected: int, stop: bool, count: nat, blocked: bool, mtx: Mutex,
    stops: nat, stopped: nat)

  datatype Holder = Nowhere | By(t: nat)

  /** A worker. `present` says that its token is in the workshop; the last four
      fields are history. */
  datatype Worker = Worker(
    present: bool, queue: seq<Event>, sworks: nat,
    holder: Holder, pushed: seq<Event>, started: seq<Event>, finished: seq<Event>)

  datatype State = State(steal: bool, thr: seq<Thread>, wkr: seq<Worker>, prod: seq<Phase>)

  datatype Action =
    | Run(t: nat)                                   // the next step of service thread t
    | Post(p: nat, w: nat, ev: Event)               // producer p pushes ev to worker w
    | Stop(p: nat)                                  // caller p enters stop()
    | Advance(p: nat)                               // the next step of caller p
    | Retry(p: nat)                                 // a compare-exchange of p fails

  // ---------------------------------------------------------------- the steps

  ghost predicate Init(s: State) {
    && |s.thr| == |s.wkr| > 0
    && (forall t | 0 <= t < |s.thr| :: s.thr[t] == Thread(Top, 0, false, 0, false, Nobody, 0, 0))
    && (forall w | 0 <= w < |s.wkr| :: s.wkr[w] == Worker(true, [], 0, Nowhere, [], [], []))
    && (forall p | 0 <= p < |s.prod| :: s.prod[p] == Idle)
  }

  /** An index a thread or a caller acts on. */
  predicate InRange(s: State, i: nat) { i < |s.thr| && i < |s.wkr| }

  /** The worker whose fields the next step of thread t may use. */
  function Touched(pc: Pc, t: nat): nat {
    if pc.Take? || pc.Pop? || pc.Handling? || pc.Credit? || pc.Return? then pc.w else t
  }

  /** A thread may not pass the mutex while another holds it. A parked thread may
      wake with or without a signal, but it has to lock the mutex again. */
  predicate CanRun(x: Thread) {
    !x.pc.Exited? && (x.pc.SyncLock? || x.pc.SyncWait? ==> x.mtx == Nobody)
  }

  predicate CanAdvance(x: Thread, ph: Phase) {
    && !ph.Idle?
    && (ph.Cas? ==> x.count == ph.stale)
    && (ph.Seen? ==> x.mtx == Nobody)
  }

  predicate Enabled(s: State, a: Action) {
    match a
    case Run(t) => InRange(s, t) && InRange(s, Touched(s.thr[t].pc, t)) && CanRun(s.thr[t])
    case Post(p, w, _) => p < |s.prod| && s.prod[p] == Idle && InRange(s, w)
    case Stop(p) => p < |s.prod| && s.prod[p] == Idle && InRange(s, 0)
    case Advance(p) =>
      p < |s.prod| && !s.prod[p].Idle? && InRange(s, s.prod[p].t) && CanAdvance(s.thr[s.prod[p].t], s.prod[p])
    case Retry(p) => p < |s.prod| && s.prod[p].Cas? && InRange(s, s.prod[p].t)
  }

  /** Where thread t of n goes after the minor workers below m: to the next
      worker it may steal, or back to the top of the loop. */
  function NextMinor(steal: bool, n: nat, t: nat, m: nat): Pc {
    var m' := if m == t then m + 1 else m;
    if steal && m' < n then Take(m', Minor) else Top
  }

  /** One step of thread t of n, whose record is x, on the worker k it touches. */
  function ThreadStep(steal: bool, n: nat, t: nat, x: Thread, k: Worker): (Thread, Worker)
    requires CanRun(x)
  {
    match x.pc
    case Top =>
      (x.(pc := if x.stop then Exited else if x.expected > 0 then Job else PollReset(0)), k)
    case PollReset(i) =>
      (x.(expected := x.expected + x.count, count := 0, pc := PollCheck(i)), k)
    case PollCheck(i) =>
      var done := x.expected > 0 || (i >= AGGRESSIVE_POLLS && x.stop);
      (x.(pc := if done then Job else if i + 1 < ALL_POLLS then PollReset(i + 1) else SyncFirst), k)
    case SyncFirst =>
      if x.count != 0
      then (x.(expected := x.expected + x.count, count := 0, pc := Job), k)
      else (x.(pc := SyncLock), k)
    case SyncLock => (x.(mtx := Owner, pc := SyncBlock), k)
    case SyncBlock => (x.(blocked := true, pc := SyncReset), k)
    case SyncReset =>
      if x.count != 0
      then (x.(count := 0, pc := SyncUnblock(x.count)), k)
      else (x.(mtx := Nobody, pc := SyncWait(false)), k)
    case SyncWait(_) => (x.(mtx := Owner, pc := SyncReset), k)
    case SyncUnblock(c) => (x.(blocked := false, pc := SyncUnlock(c)), k)
    case SyncUnlock(c) => (x.(mtx := Nobody, expected := x.expected + c, pc := Job), k)
    case Job => (x.(pc := if x.stop then Exited else Take(t, Prior)), k)
    case Take(w, level) =>
      if k.present
      then (x.(pc := Pop(w, level, 0)), k.(present := false, holder := By(t)))
      else (x.(pc := if level == Prior then Subtract(0) else NextMinor(steal, n, t, w + 1)), k)
    case Pop(w, level, works) =>
      if k.queue == []
      then (x.(pc := Credit(w, level, works)), k)
      else (x.(pc := Handling(w, level, works + 1, k.queue[0])),
            k.(queue := k.queue[1..], started := k.started + [k.queue[0]]))
    case Handling(w, level, works, ev) =>
      (x.(pc := Pop(w, level, works)), k.(finished := k.finished + [ev]))
    case Credit(w, level, works) =>
      (x.(pc := Return(w, level, works)), if level == Minor then k.(sworks := k.sworks + works) else k)
    case Return(w, level, works) =>
      (x.(pc := if level == Prior then Subtract(works) else NextMinor(steal, n, t, w + 1)),
       k.(present := true, holder := Nowhere))
    case Subtract(works) => (x.(expected := x.expected - works, pc := Fetch(works)), k)
    case Fetch(works) =>
      (x.(expected := x.expected - k.sworks, pc := if works > 0 then Top else NextMinor(steal, n, t, 0)),
       k.(sworks := 0))
  }

  /** The phase after `synchronized_incr` on thread t of n returns. */
  function AfterIncr(n: nat, t: nat, stopping: bool): Phase {
    if stopping && t + 1 < n then Load(t + 1, true) else Idle
  }

  /** The bookkeeping of a stop call that is done with a thread. */
  function Passed(x: Thread, stopping: bool): Thread {
    if stopping then x.(stopped := x.stopped + 1) else x
  }

  /** One step of caller p, which is in phase ph, on the thread x it targets. */
  function CallStep(n: nat, p: nat, x: Thread, ph: Phase): (Thread, Phase)
    requires CanAdvance(x, ph)
  {
    match ph
    case Load(t, g) => (x, Cas(t, g, x.count))
    case Cas(t, g, stale) => (x.(count := stale + 1, stops := if g then x.stops + 1 else x.stops), Raised(t, g))
    case Raised(t, g) => if x.blocked then (x, Seen(t, g)) else (Passed(x, g), AfterIncr(n, t, g))
    case Seen(t, g) => (x.(mtx := Notifier(p)), Holding(t, g))
    case Holding(t, g) => (if x.pc.SyncWait? then x.(pc := SyncWait(true)) else x, Leaving(t, g))
    case Leaving(t, g) => (Passed(x.(mtx := Nobody), g), AfterIncr(n, t, g))
    case Flag(t) => (x.(stop := true), if t + 1 < n then Flag(t + 1) else Load(0, true))
  }

  function Next(s: State, a: Action): State
    requires Enabled(s, a)
  {
    match a
    case Run(t) =>
      var w := Touched(s.thr[t].pc, t);
      var (x, k) := ThreadStep(s.steal, |s.thr|, t, s.thr[t], s.wkr[w]);
      s.(thr := s.thr[t := x], wkr := s.wkr[w := k])
    case Post(p, w, ev) =>
      var k := s.wkr[w];
      s.(wkr := s.wkr[w := k.(queue := k.queue + [ev], pushed := k.pushed + [ev])],
         prod := s.prod[p := Load(w, false)])
    case Stop(p) => s.(prod := s.prod[p := Flag(0)])
    case Advance(p) =>
      var t := s.prod[p].t;
      var (x, ph) := CallStep(|s.thr|, p, s.thr[t], s.prod[p]);
      s.(thr := s.thr[t := x], prod := s.prod[p := ph])
    case Retry(p) => s.(prod := s.prod[p := s.prod[p].(stale := s.thr[s.prod[p].t].count)])
  }

  /** A run: states joined by enabled actions, from an initial state. */
  ghost predicate IsRun(run: seq<State>, acts: seq<Action>) {
    && |run| == |acts| + 1
    && Init(run[0])
    && forall i | 0 <= i < |acts| :: Enabled(run[i], acts[i]) && run[i + 1] == Next(run[i], acts[i])
  }
}
