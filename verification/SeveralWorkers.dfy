/** A service thread that owns several workers, as a machine: what it is worth that
    a turn takes work off more than once. */
module SeveralWorkers {
  import opened EventService

  /** The thread, the worker of the turn it is at, the work done in the turn so far,
      its workers, and a caller that posts events. */
  datatype Service = Service(owner: Thread, at: nat, done: nat, wkr: seq<Worker>, caller: Phase)

  datatype Act =
    | Go                      // the next step of the thread
    | Send(w: nat, ev: Event) // the caller pushes ev to worker w
    | Call                    // the next step of the caller
    | Miss                    // its compare-exchange fails

  function Start(n: nat): Service {
    Service(Thread(Top, 0, false, 0, false, Nobody, 0, 0), 0, 0, seq(n, _ => Worker(true, [], 0, Nowhere, [], [], [])), Idle)
  }

  /** The worker that the next step may use. */
  function Used(s: Service): nat {
    if s.owner.pc.Subtract? || s.owner.pc.Fetch? then s.at else Touched(s.owner.pc, 0)
  }

  predicate CanAct(s: Service, a: Act) {
    match a
    case Go => Used(s) < |s.wkr| && CanRun(s.owner)
    case Send(w, _) => s.caller == Idle && w < |s.wkr|
    case Call => CanAdvance(s.owner, s.caller)
    case Miss => s.caller.Cas?
  }

  /** A step of the thread is one of a thread with one worker, but that what it takes
      off is all it has done in the turn so far, and that it goes on to the next
      worker of its own. */
  function Step(s: Service): Service
    requires CanAct(s, Go)
  {
    var w := Used(s);
    var (x, k) := ThreadStep(false, 1, 0, s.owner, s.wkr[w]);
    var s' := s.(wkr := s.wkr[w := k]);
    if s.owner.pc.Job? then s'.(owner := x, at := 0, done := 0)
    else if x.pc.Subtract? then
      var done := s.done + x.pc.works;
      s'.(owner := x.(pc := Subtract(done)), done := done)
    else if s.owner.pc.Fetch? && s.at + 1 < |s.wkr| then s'.(owner := x.(pc := Take(s.at + 1, Prior)), at := s.at + 1)
    else s'.(owner := x)
  }

  function After(s: Service, a: Act): Service
    requires CanAct(s, a)
  {
    match a
    case Go => Step(s)
    case Send(w, ev) =>
      var k := s.wkr[w];
      s.(wkr := s.wkr[w := k.(queue := k.queue + [ev], pushed := k.pushed + [ev])], caller := Load(0, false))
    case Call =>
      var (x, ph) := CallStep(1, 0, s.owner, s.caller);
      s.(owner := x, caller := ph)
    case Miss => s.(caller := s.caller.(stale := s.owner.count))
  }

  /** These actions lead from s to z. */
  predicate Leads(s: Service, acts: seq<Act>, z: Service)
    decreases |acts|
  {
    if acts == [] then s == z else CanAct(s, acts[0]) && Leads(After(s, acts[0]), acts[1..], z)
  }

  lemma {:induction false} LeadsOn(s: Service, a: seq<Act>, m: Service, b: seq<Act>, z: Service)
    requires Leads(s, a, m) && Leads(m, b, z)
    ensures Leads(s, a + b, z)
    decreases |a|
  {
    if a == [] {
      assert a + b == b;
    } else {
      LeadsOn(After(s, a[0]), a[1..], m, b, z);
      assert (a + b)[1..] == a[1..] + b;
    }
  }

  lemma One(s: Service, a: Act)
    requires CanAct(s, a)
    ensures Leads(s, [a], After(s, a))
  {
    assert [a][1..] == [];
  }

  /** The thread is parked, nobody is about to wake it, every token is in the
      workshop, and worker w has an event. */
  predicate Asleep(s: Service, w: nat) {
    && (s.owner.pc == SyncWait(false) || s.owner.pc == SyncReset) && s.owner.count == 0 && s.owner.expected <= 0 && !s.owner.stop
    && s.caller == Idle && w < |s.wkr| && s.wkr[w].queue != [] && forall k | 0 <= k < |s.wkr| :: s.wkr[k].present
  }

  /** It stays so, however often the condition variable wakes it for nothing. */
  lemma {:induction false} StaysAsleep(s: Service, w: nat, acts: seq<Act>, z: Service)
    requires Asleep(s, w) && Leads(s, acts, z) && forall a | a in acts :: a == Go
    ensures Asleep(z, w) && z.wkr[w].queue == s.wkr[w].queue
    decreases |acts|
  {
    if acts != [] {
      assert acts[0] in acts && forall a | a in acts[1..] :: a in acts;
      assert s.wkr != [] && s.wkr[0 := s.wkr[0]] == s.wkr;
      StaysAsleep(Step(s), w, acts[1..], z);
    }
  }

  /** Polling finds nothing and ends on the condition variable. */
  lemma {:induction false} Parks(s: Service, i: nat) returns (acts: seq<Act>, z: Service)
    requires s.owner.pc == PollReset(i) && i < ALL_POLLS && s.wkr != []
    requires s.owner.count == 0 && s.owner.expected <= 0 && !s.owner.stop && s.owner.mtx == Nobody
    ensures Leads(s, acts, z) && z == s.(owner := s.owner.(pc := SyncWait(false), blocked := true))
    decreases ALL_POLLS - i
  {
    var s1 := Step(s);
    assert s1 == s.(owner := s.owner.(pc := PollCheck(i)));
    var s2 := Step(s1);
    Two(s);
    var more;
    if i + 1 < ALL_POLLS {
      assert s2 == s.(owner := s.owner.(pc := PollReset(i + 1)));
      more, z := Parks(s2, i + 1);
    } else {
      assert s2 == s.(owner := s.owner.(pc := SyncFirst));
      more, z := Waits(s2);
    }
    acts := [Go, Go] + more;
    LeadsOn(s, [Go, Go], s2, more, z);
  }

  lemma Two(s: Service)
    requires CanAct(s, Go) && CanAct(Step(s), Go)
    ensures Leads(s, [Go, Go], Step(Step(s)))
  {
    One(s, Go);
    One(Step(s), Go);
    LeadsOn(s, [Go], Step(s), [Go], Step(Step(s)));
    assert [Go] + [Go] == [Go, Go];
  }

  lemma Waits(s: Service) returns (acts: seq<Act>, z: Service)
    requires s.owner.pc == SyncFirst && s.owner.count == 0 && s.owner.mtx == Nobody && s.wkr != []
    ensures Leads(s, acts, z) && z == s.(owner := s.owner.(pc := SyncWait(false), blocked := true))
  {
    var s1 := Step(s);
    assert s1 == s.(owner := s.owner.(pc := SyncLock));
    var s2 := Step(s1);
    assert s2 == s.(owner := s.owner.(pc := SyncBlock, mtx := Owner));
    Two(s);
    var s3 := Step(s2);
    assert s3 == s.(owner := s.owner.(pc := SyncReset, mtx := Owner, blocked := true));
    z := Step(s3);
    Two(s2);
    acts := [Go, Go] + [Go, Go];
    LeadsOn(s, [Go, Go], s2, [Go, Go], z);
  }

  /** A post to a thread that is not waiting. */
  lemma Posts(s: Service, w: nat, ev: Event) returns (acts: seq<Act>, z: Service)
    requires s.caller == Idle && w < |s.wkr| && !s.owner.blocked
    ensures Leads(s, acts, z)
    ensures var k := s.wkr[w];
            z == s.(owner := s.owner.(count := s.owner.count + 1),
                    wkr := s.wkr[w := k.(queue := k.queue + [ev], pushed := k.pushed + [ev])])
  {
    var s1 := After(s, Send(w, ev));
    var s2 := After(s1, Call);
    var s3 := After(s2, Call);
    z := After(s3, Call);
    One(s, Send(w, ev));
    One(s1, Call);
    One(s2, Call);
    One(s3, Call);
    LeadsOn(s, [Send(w, ev)], s1, [Call], s2);
    LeadsOn(s, [Send(w, ev)] + [Call], s2, [Call], s3);
    LeadsOn(s, [Send(w, ev)] + [Call] + [Call], s3, [Call], z);
    acts := [Send(w, ev)] + [Call] + [Call] + [Call];
  }

  /** A turn at a worker with no event, or with one. */
  lemma Turn(s: Service, w: nat) returns (acts: seq<Act>, z: Service)
    requires s.owner.pc == Take(w, Prior) && w < |s.wkr| && s.at == w && s.wkr[w].present && |s.wkr[w].queue| <= 1 && s.wkr[w].sworks == 0
    ensures Leads(s, acts, z)
    ensures var k, n := s.wkr[w], |s.wkr[w].queue|;
            var done := s.done + n;
            var next := if w + 1 < |s.wkr| then Take(w + 1, Prior) else Top;
            z == Service(s.owner.(pc := next, expected := s.owner.expected - done),
                         if w + 1 < |s.wkr| then w + 1 else w, done,
                         s.wkr[w := k.(present := true, holder := Nowhere, queue := [], started := k.started + k.queue, finished := k.finished + k.queue)],
                         s.caller)
  {
    var s1, works;
    acts, s1, works := Handles(s, w);
    var more;
    more, z := TurnEnds(s1, w, works);
    LeadsOn(s, acts, s1, more, z);
    acts := acts + more;
  }

  /** The token is taken and what is there is handled. */
  lemma Handles(s: Service, w: nat) returns (acts: seq<Act>, z: Service, works: nat)
    requires s.owner.pc == Take(w, Prior) && w < |s.wkr| && s.wkr[w].present && |s.wkr[w].queue| <= 1
    ensures Leads(s, acts, z) && works == |s.wkr[w].queue|
    ensures var k := s.wkr[w];
            z == s.(owner := s.owner.(pc := Pop(w, Prior, works)),
                    wkr := s.wkr[w := k.(present := false, holder := By(0), queue := [], started := k.started + k.queue, finished := k.finished + k.queue)])
  {
    var k := s.wkr[w];
    z := Step(s);
    One(s, Go);
    acts, works := [Go], 0;
    assert z == s.(owner := s.owner.(pc := Pop(w, Prior, 0)), wkr := s.wkr[w := k.(present := false, holder := By(0))]);
    if k.queue == [] {
      assert k.started + [] == k.started && k.finished + [] == k.finished;
    } else {
      var s1 := z;
      z := HandlesOne(s1, w);
      LeadsOn(s, [Go], s1, [Go, Go], z);
      acts, works := [Go] + [Go, Go], 1;
      assert k.queue == [k.queue[0]];
    }
  }

  lemma HandlesOne(s: Service, w: nat) returns (z: Service)
    requires s.owner.pc == Pop(w, Prior, 0) && w < |s.wkr| && |s.wkr[w].queue| == 1
    ensures Leads(s, [Go, Go], z)
    ensures var k := s.wkr[w];
            z == s.(owner := s.owner.(pc := Pop(w, Prior, 1)),
                    wkr := s.wkr[w := k.(queue := [], started := k.started + k.queue, finished := k.finished + k.queue)])
  {
    var k, s1 := s.wkr[w], Step(s);
    assert k.queue == [k.queue[0]] && k.queue[1..] == [];
    assert s1 == s.(owner := s.owner.(pc := Handling(w, Prior, 1, k.queue[0])),
                    wkr := s.wkr[w := k.(queue := [], started := k.started + k.queue)]);
    Two(s);
    z := Step(s1);
  }

  /** From the empty queue to the next worker. */
  lemma TurnEnds(s: Service, w: nat, works: nat) returns (acts: seq<Act>, z: Service)
    requires s.owner.pc == Pop(w, Prior, works) && w < |s.wkr| && s.at == w && s.wkr[w].queue == [] && s.wkr[w].sworks == 0
    ensures Leads(s, acts, z)
    ensures var done := s.done + works;
            var next := if w + 1 < |s.wkr| then Take(w + 1, Prior) else Top;
            z == Service(s.owner.(pc := next, expected := s.owner.expected - done),
                         if w + 1 < |s.wkr| then w + 1 else w, done,
                         s.wkr[w := s.wkr[w].(present := true, holder := Nowhere)], s.caller)
  {
    var s3 := PutsBack(s, w, works);
    z := TakesOff(s3, w);
    acts := [Go, Go] + [Go] + [Go, Go];
    LeadsOn(s, [Go, Go] + [Go], s3, [Go, Go], z);
  }

  lemma PutsBack(s: Service, w: nat, works: nat) returns (z: Service)
    requires s.owner.pc == Pop(w, Prior, works) && w < |s.wkr| && s.wkr[w].queue == []
    ensures Leads(s, [Go, Go] + [Go], z)
    ensures z == s.(owner := s.owner.(pc := Subtract(s.done + works)), done := s.done + works,
                    wkr := s.wkr[w := s.wkr[w].(present := true, holder := Nowhere)])
  {
    var s1 := Step(s);
    assert s1 == s.(owner := s.owner.(pc := Credit(w, Prior, works)));
    var s2 := Step(s1);
    assert s2 == s.(owner := s.owner.(pc := Return(w, Prior, works)));
    Two(s);
    z := Step(s2);
    One(s2, Go);
    LeadsOn(s, [Go, Go], s2, [Go], z);
  }

  lemma TakesOff(s: Service, w: nat) returns (z: Service)
    requires s.owner.pc == Subtract(s.done) && w < |s.wkr| && s.at == w && s.wkr[w].sworks == 0
    ensures Leads(s, [Go, Go], z)
    ensures z == s.(owner := s.owner.(pc := if w + 1 < |s.wkr| then Take(w + 1, Prior) else Top, expected := s.owner.expected - s.done),
                    at := if w + 1 < |s.wkr| then w + 1 else w)
  {
    var s1 := Step(s);
    assert s1 == s.(owner := s.owner.(pc := Fetch(s.done), expected := s.owner.expected - s.done)) by {
      assert s.wkr[w := s.wkr[w]] == s.wkr;
    }
    z := Step(s1);
    assert s.wkr[w := s.wkr[w].(sworks := 0)] == s.wkr;
    Two(s);
  }

  /** An event to the first of two workers, and then one to the second: the thread
      handles the first and goes to sleep on the other, which nobody wakes it for. */
  lemma SleepsOnWork(a: Event, b: Event) returns (acts: seq<Act>, z: Service)
    ensures Leads(Start(2), acts, z) && Asleep(z, 1)
    ensures z.wkr[0].finished == [a] && z.wkr[1].queue == [b] && z.wkr[1].started == []
  {
    var s0 := Start(2);
    var acts1, s1 := Posts(s0, 0, a);
    var acts2, s2 := FirstTurn(s1);
    LeadsOn(s0, acts1, s1, acts2, s2);
    var acts3;
    acts3, z := NextIsLost(s2, b);
    LeadsOn(s0, acts1 + acts2, s2, acts3, z);
    acts := acts1 + acts2 + acts3;
  }

  /** A thread that has taken off too much sleeps on the next event. */
  lemma NextIsLost(s: Service, b: Event) returns (acts: seq<Act>, z: Service)
    requires |s.wkr| == 2 && s.caller == Idle && s.wkr[0].present && s.wkr[1].present && s.wkr[1].queue == []
    requires s.owner.pc == Top && s.owner.expected == -1 && s.owner.count == 0
    requires !s.owner.stop && !s.owner.blocked && s.owner.mtx == Nobody
    ensures Leads(s, acts, z) && Asleep(z, 1) && |z.wkr| == 2
    ensures z.wkr[0] == s.wkr[0] && z.wkr[1].queue == [b] && z.wkr[1].started == s.wkr[1].started
  {
    var acts1, s1 := Posts(s, 1, b);
    var acts2, s2 := Swallows(s1);
    LeadsOn(s, acts1, s1, acts2, s2);
    var acts3;
    acts3, z := Parks(s2, 1);
    LeadsOn(s, acts1 + acts2, s2, acts3, z);
    acts := acts1 + acts2 + acts3;
  }

  /** The turn that takes the one event off twice. */
  lemma FirstTurn(s: Service) returns (acts: seq<Act>, z: Service)
    requires |s.wkr| == 2 && s.owner.pc == Top && s.owner.expected == 0 && s.owner.count == 1 && !s.owner.stop
    requires s.wkr[0].present && s.wkr[1].present && s.wkr[0].sworks == s.wkr[1].sworks == 0
    requires |s.wkr[0].queue| == 1 && s.wkr[1].queue == []
    ensures Leads(s, acts, z)
    ensures z.owner == s.owner.(pc := Top, expected := -1, count := 0) && z.caller == s.caller && |z.wkr| == 2
    ensures z.wkr[0].present && z.wkr[0].finished == s.wkr[0].finished + s.wkr[0].queue
    ensures z.wkr[1] == s.wkr[1].(holder := Nowhere)
  {
    var acts4, s4 := StartsTurn(s);
    var acts5, s5 := Turn(s4, 0);
    LeadsOn(s, acts4, s4, acts5, s5);
    var acts6;
    acts6, z := Turn(s5, 1);
    LeadsOn(s, acts4 + acts5, s5, acts6, z);
    acts := acts4 + acts5 + acts6;
    assert s.wkr[1].started + [] == s.wkr[1].started && s.wkr[1].finished + [] == s.wkr[1].finished;
  }

  /** The count that a post has raised is owed, and a turn starts. */
  lemma StartsTurn(s: Service) returns (acts: seq<Act>, z: Service)
    requires s.wkr != [] && s.owner.pc == Top && s.owner.expected == 0 && s.owner.count > 0 && !s.owner.stop
    ensures Leads(s, acts, z)
    ensures z == s.(owner := s.owner.(pc := Take(0, Prior), expected := s.owner.count, count := 0), at := 0, done := 0)
  {
    assert s.wkr[0 := s.wkr[0]] == s.wkr;
    var s1 := Step(s);
    assert s1 == s.(owner := s.owner.(pc := PollReset(0)));
    var s2 := Step(s1);
    assert s2 == s.(owner := s.owner.(pc := PollCheck(0), expected := s.owner.count, count := 0));
    Two(s);
    var s3 := Step(s2);
    assert s3 == s2.(owner := s2.owner.(pc := Job));
    z := Step(s3);
    Two(s2);
    acts := [Go, Go] + [Go, Go];
    LeadsOn(s, [Go, Go], s2, [Go, Go], z);
  }

  /** The count of the second event only makes up for that. */
  lemma Swallows(s: Service) returns (acts: seq<Act>, z: Service)
    requires s.owner.pc == Top && s.owner.expected == -1 && s.owner.count == 1 && !s.owner.stop && s.wkr != []
    ensures Leads(s, acts, z) && z == s.(owner := s.owner.(pc := PollReset(1), expected := 0, count := 0))
  {
    var s1 := Step(s);
    One(s, Go);
    z := Step(Step(s1));
    Two(s1);
    LeadsOn(s, [Go], s1, [Go, Go], z);
    acts := [Go] + [Go, Go];
  }
}
