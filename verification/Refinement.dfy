/** The event service over the lock-free queues: the holder of a worker's token
    pops from the worker's queue step by step, and producers push in their loops.
    Seen from the service, the queue is the sequence of module EventService. */
module Refinement {
  import ES = EventService
  import EP = EventServiceProofs
  import LF = LockFree
  import LP = LockFreeProofs

  /** The service, the memory, and the history of the memory. Structure w of the
      memory is the queue of worker w; others are pools, say. An event is known by
      its node. */
  datatype World = World(s: ES.State, m: LF.Memory, h: LP.History)

  datatype Step =
    | Serve(a: ES.Action)               // a step of the service that is not on a queue
    | Consume(t: nat)                   // thread t makes the next step of its pop
    | Touch(b: LF.Action)               // a step of the memory that the service does not see
    | PushDone(p: nat, q: nat)          // producer p's node is on a queue; caller q goes on to notify

  ghost predicate Init(x: World) {
    && ES.Init(x.s) && LP.Start(x.m, x.h)
    && |x.s.wkr| <= |x.m.ds| && forall w | 0 <= w < |x.s.wkr| :: x.m.ds[w].kind == LF.Queue
  }

  /** The worker whose queue thread t is popping from. */
  predicate Popping(s: ES.State, t: nat, w: nat) { t < |s.thr| && s.thr[t].pc.Pop? && s.thr[t].pc.w == w }

  predicate Enabled(x: World, a: Step) {
    match a
    case Serve(b) => ES.Enabled(x.s, b) && !b.Post? && (b.Run? ==> !x.s.thr[b.t].pc.Pop?)
    case Consume(t) =>
      && ES.Enabled(x.s, ES.Run(t)) && x.s.thr[t].pc.Pop?
      && LF.Enabled(x.m, LF.Consume(x.s.thr[t].pc.w))
    case Touch(b) =>
      && LF.Enabled(x.m, b) && LP.Legal(x.h, b) && (b.Consume? ==> b.d >= |x.s.wkr|)
      && (LF.Observe(x.m, b).Pushed? ==> LF.Observe(x.m, b).d >= |x.s.wkr|)
    case PushDone(p, q) =>
      && LF.Enabled(x.m, LF.Advance(p)) && x.m.prod[p].Cas?
      && ES.Enabled(x.s, ES.Post(q, x.m.prod[p].d, x.m.prod[p].n))
  }

  /** The memory after a step on it. */
  function OnMemory(x: World, b: LF.Action): World
    requires LF.Enabled(x.m, b) && |x.h.ls| == |x.m.ds|
  {
    x.(m := LF.Next(x.m, b), h := LP.Record(x.m, x.h, b))
  }

  /** A pop takes effect in the service with the step that returns a node, or none. */
  function Next(x: World, a: Step): World
    requires Enabled(x, a) && |x.h.ls| == |x.m.ds|
  {
    match a
    case Serve(b) => x.(s := ES.Next(x.s, b))
    case Consume(t) =>
      var b := LF.Consume(x.s.thr[t].pc.w);
      var x' := OnMemory(x, b);
      if LF.Observe(x.m, b).Silent? then x' else x'.(s := ES.Next(x.s, ES.Run(t)))
    case Touch(b) => OnMemory(x, b)
    case PushDone(p, q) =>
      OnMemory(x, LF.Advance(p)).(s := ES.Next(x.s, ES.Post(q, x.m.prod[p].d, x.m.prod[p].n)))
  }

  // ------------------------------------------------------------- the invariant

  /** The service's queue is the lock-free one, and one that is in the middle of a
      pop has a thread that pops from it. */
  ghost predicate QueueOk(x: World, w: nat)
    requires w < |x.s.wkr| && |x.s.wkr| <= |x.m.ds| == |x.h.ls|
  {
    && x.m.ds[w].kind == LF.Queue
    && x.s.wkr[w].queue == LP.Fifo(x.h.ls[w])
    && (!x.m.ds[w].con.Ready? ==> exists t :: Popping(x.s, t, w))
  }

  ghost predicate Coupled(x: World) {
    && EP.Reachable(x.s) && LP.Inv(x.m, x.h)
    && |x.s.wkr| <= |x.m.ds|
    && forall w | 0 <= w < |x.s.wkr| :: QueueOk(x, w)
  }

  lemma InitCoupled(x: World)
    requires Init(x)
    ensures Coupled(x)
  {
    var none: seq<ES.Action> := [];
    assert ES.IsRun([x.s], none) && [x.s][|none|] == x.s;
    LP.StartInv(x.m, x.h);
  }

  /** A step of the service goes on from what can be reached. */
  lemma ReachNext(s: ES.State, a: ES.Action)
    requires EP.Reachable(s) && ES.Enabled(s, a)
    ensures EP.Reachable(ES.Next(s, a))
  {
    var run, acts :| ES.IsRun(run, acts) && run[|acts|] == s;
    var run', acts' := run + [ES.Next(s, a)], acts + [a];
    assert forall i | 0 <= i < |acts'| :: ES.Enabled(run'[i], acts'[i]) && run'[i + 1] == ES.Next(run'[i], acts'[i]);
    assert ES.IsRun(run', acts') && run'[|acts'|] == ES.Next(s, a);
  }

  lemma MemoryInv(m: LF.Memory, h: LP.History, b: LF.Action)
    requires LP.Inv(m, h) && LF.Enabled(m, b) && LP.Legal(h, b)
    ensures LP.Inv(LF.Next(m, b), LP.Record(m, h, b)) && |LF.Next(m, b).ds| == |m.ds|
  {
    if b.Consume? { LP.ConsumeKeeps(m, h, b.d); }
    else if b.Advance? && m.prod[b.p].Cas? { LP.CasKeeps(m, h, b.p); }
    else { LP.OutsideKeeps(m, h, b); }
  }

  /** A step of the memory keeps its invariant, and does to each queue what it is
      seen to do. */
  lemma MemoryStep(m: LF.Memory, h: LP.History, b: LF.Action, w: nat)
    requires LP.Inv(m, h) && LF.Enabled(m, b) && LP.Legal(h, b) && w < |m.ds| && m.ds[w].kind == LF.Queue
    ensures LP.Inv(LF.Next(m, b), LP.Record(m, h, b)) && |LF.Next(m, b).ds| == |m.ds|
    ensures LF.Next(m, b).ds[w].kind == LF.Queue
    ensures LP.Fifo(h.ls[w]) + LP.Moved(LF.Observe(m, b), w, true)
         == LP.Moved(LF.Observe(m, b), w, false) + LP.Fifo(LP.Record(m, h, b).ls[w])
    ensures LF.Observe(m, b) == LF.Empty(w) ==> LP.Fifo(h.ls[w]) == []
  {
    MemoryInv(m, h, b);
    LP.StepMoves(m, h, b, w);
  }

  lemma Unmoved(before: seq<nat>, after: seq<nat>)
    requires before + [] == [] + after
    ensures before == after
  {
    assert before + [] == before && [] + after == after;
  }

  /** Only its consumer moves a consumer on, and it is at its start again when it has
      returned something. */
  lemma ConsumerAfter(m: LF.Memory, b: LF.Action, w: nat)
    requires LF.Enabled(m, b) && w < |m.ds|
    ensures b != LF.Consume(w) ==> LF.Next(m, b).ds[w].con == m.ds[w].con
    ensures b == LF.Consume(w) && !LF.Observe(m, b).Silent? ==> LF.Next(m, b).ds[w].con.Ready?
    ensures b == LF.Consume(w) && !LF.Observe(m, b).Silent? ==>
              LF.Observe(m, b) == LF.Empty(w) || exists n :: LF.Observe(m, b) == LF.Popped(w, n)
  {
  }

  // ------------------------------------------------------------------- the steps

  /** A step of the service that is not on a queue. */
  lemma ServeKeeps(x: World, a: ES.Action)
    requires Coupled(x) && Enabled(x, Serve(a))
    ensures Coupled(Next(x, Serve(a)))
  {
    var x' := Next(x, Serve(a));
    ReachNext(x.s, a);
    forall w | 0 <= w < |x'.s.wkr| ensures QueueOk(x', w) {
      assert QueueOk(x, w);
      ServeQueue(x.s, a, w);
      if !x.m.ds[w].con.Ready? {
        var t :| Popping(x.s, t, w);
        ServePopping(x.s, a, t, w);
      }
    }
  }

  lemma ServeQueue(s: ES.State, a: ES.Action, w: nat)
    requires ES.Enabled(s, a) && !a.Post? && (a.Run? ==> !s.thr[a.t].pc.Pop?) && w < |s.wkr|
    ensures |ES.Next(s, a).wkr| == |s.wkr| && ES.Next(s, a).wkr[w].queue == s.wkr[w].queue
  {
  }

  lemma ServePopping(s: ES.State, a: ES.Action, t: nat, w: nat)
    requires ES.Enabled(s, a) && !a.Post? && (a.Run? ==> !s.thr[a.t].pc.Pop?) && Popping(s, t, w)
    ensures Popping(ES.Next(s, a), t, w)
  {
  }

  /** A step of the memory that the service does not see. */
  lemma TouchKeeps(x: World, b: LF.Action)
    requires Coupled(x) && Enabled(x, Touch(b))
    ensures Coupled(Next(x, Touch(b)))
  {
    var x' := Next(x, Touch(b));
    MemoryInv(x.m, x.h, b);
    forall w | 0 <= w < |x'.s.wkr| ensures QueueOk(x', w) {
      assert QueueOk(x, w);
      MemoryStep(x.m, x.h, b, w);
      ConsumerAfter(x.m, b, w);
    }
  }

  /** A producer's node is on a worker's queue. */
  lemma PushKeeps(x: World, p: nat, q: nat)
    requires Coupled(x) && Enabled(x, PushDone(p, q))
    ensures Coupled(Next(x, PushDone(p, q)))
  {
    var x', b := Next(x, PushDone(p, q)), LF.Advance(p);
    var d, n := x.m.prod[p].d, x.m.prod[p].n;
    ReachNext(x.s, ES.Post(q, d, n));
    MemoryInv(x.m, x.h, b);
    forall w | 0 <= w < |x'.s.wkr| ensures QueueOk(x', w) {
      assert QueueOk(x, w);
      MemoryStep(x.m, x.h, b, w);
      ConsumerAfter(x.m, b, w);
      if !x.m.ds[w].con.Ready? {
        var t :| Popping(x.s, t, w);
        assert Popping(x'.s, t, w);
      }
    }
  }

  /** The queue that is popped from, after a step that returns a node. */
  lemma PoppedQueue(x: World, t: nat, w: nat)
    requires Coupled(x) && Enabled(x, Consume(t)) && w == x.s.thr[t].pc.w && LF.Observe(x.m, LF.Consume(w)).Popped?
    ensures var ev, x' := LF.Observe(x.m, LF.Consume(w)), Next(x, Consume(t));
            && |x'.m.ds| == |x'.h.ls| == |x.m.ds|
            && x.s.wkr[w].queue != [] && ev == LF.Popped(w, x.s.wkr[w].queue[0])
            && x.s.wkr[w].queue[1..] == LP.Fifo(x'.h.ls[w])
  {
    var b := LF.Consume(w);
    assert QueueOk(x, w);
    MemoryStep(x.m, x.h, b, w);
    ConsumerAfter(x.m, b, w);
    var ev := LF.Observe(x.m, b);
    assert LP.Moved(ev, w, true) == [] && LP.Moved(ev, w, false) == [ev.n];
    assert x.s.wkr[w].queue + [] == x.s.wkr[w].queue;
  }

  /** And after one that finds nothing. */
  lemma EmptyQueue(x: World, t: nat, w: nat)
    requires Coupled(x) && Enabled(x, Consume(t)) && w == x.s.thr[t].pc.w && LF.Observe(x.m, LF.Consume(w)).Empty?
    ensures var x' := Next(x, Consume(t));
            |x'.m.ds| == |x'.h.ls| == |x.m.ds| && x.s.wkr[w].queue == [] && LP.Fifo(x'.h.ls[w]) == []
  {
    var b := LF.Consume(w);
    assert QueueOk(x, w);
    MemoryStep(x.m, x.h, b, w);
    ConsumerAfter(x.m, b, w);
  }

  /** What the service makes of it. */
  lemma RunPop(s: ES.State, t: nat)
    requires ES.Enabled(s, ES.Run(t)) && s.thr[t].pc.Pop?
    ensures var s', w := ES.Next(s, ES.Run(t)), s.thr[t].pc.w;
            && |s'.wkr| == |s.wkr| && |s'.thr| == |s.thr|
            && (forall v | 0 <= v < |s.wkr| && v != w :: s'.wkr[v] == s.wkr[v])
            && (forall u | 0 <= u < |s.thr| && u != t :: s'.thr[u] == s.thr[u])
            && (s.wkr[w].queue == [] ==> s'.thr[t].pc.Credit? && s'.wkr[w].queue == [])
            && (s.wkr[w].queue != [] ==>
                  && s'.thr[t].pc.Handling? && s'.thr[t].pc.ev == s.wkr[w].queue[0]
                  && s'.wkr[w].queue == s.wkr[w].queue[1..])
  {
  }

  /** The event that the service hands to the handler is the node that the lock-free
      queue returns, and the service finds the queue empty when that returns none. */
  lemma PopSeen(x: World, t: nat)
    requires Coupled(x) && Enabled(x, Consume(t))
    ensures var w, ev, x' := x.s.thr[t].pc.w, LF.Observe(x.m, LF.Consume(x.s.thr[t].pc.w)), Next(x, Consume(t));
            && (ev.Popped? ==>
                  && x.s.wkr[w].queue != [] && ev == LF.Popped(w, x.s.wkr[w].queue[0])
                  && x'.s.thr[t].pc.Handling? && x'.s.thr[t].pc.ev == ev.n)
            && (ev.Empty? ==> x.s.wkr[w].queue == [] && x'.s.thr[t].pc.Credit?)
  {
    var w := x.s.thr[t].pc.w;
    var ev := LF.Observe(x.m, LF.Consume(w));
    if ev.Popped? {
      PoppedQueue(x, t, w);
      RunPop(x.s, t);
    }
    if ev.Empty? {
      EmptyQueue(x, t, w);
      RunPop(x.s, t);
    }
  }

  /** A queue that is not popped from. */
  lemma OtherQueue(x: World, t: nat, w: nat)
    requires Coupled(x) && Enabled(x, Consume(t)) && w < |x.s.wkr| && w != x.s.thr[t].pc.w
    ensures w < |Next(x, Consume(t)).s.wkr| <= |Next(x, Consume(t)).m.ds| == |Next(x, Consume(t)).h.ls|
    ensures QueueOk(Next(x, Consume(t)), w)
  {
    var x', b := Next(x, Consume(t)), LF.Consume(x.s.thr[t].pc.w);
    assert QueueOk(x, w);
    MemoryStep(x.m, x.h, b, w);
    ConsumerAfter(x.m, b, w);
    RunPop(x.s, t);
    if !x.m.ds[w].con.Ready? {
      var u :| Popping(x.s, u, w);
      assert Popping(x'.s, u, w);
    }
  }

  /** The queue that is popped from, after a step that returns nothing yet. */
  lemma SilentQueue(x: World, t: nat, w: nat)
    requires Coupled(x) && Enabled(x, Consume(t)) && w == x.s.thr[t].pc.w && LF.Observe(x.m, LF.Consume(w)).Silent?
    ensures w < |Next(x, Consume(t)).s.wkr| <= |Next(x, Consume(t)).m.ds| == |Next(x, Consume(t)).h.ls|
    ensures QueueOk(Next(x, Consume(t)), w)
  {
    var x', b := Next(x, Consume(t)), LF.Consume(w);
    assert QueueOk(x, w);
    MemoryStep(x.m, x.h, b, w);
    KindStays(x.m, b, w);
    Unmoved(LP.Fifo(x.h.ls[w]), LP.Fifo(x'.h.ls[w]));
    assert x'.s == x.s && Popping(x'.s, t, w);
  }

  /** And after one that returns a node or none. */
  lemma LoudQueue(x: World, t: nat, w: nat)
    requires Coupled(x) && Enabled(x, Consume(t)) && w == x.s.thr[t].pc.w && !LF.Observe(x.m, LF.Consume(w)).Silent?
    ensures w < |Next(x, Consume(t)).s.wkr| <= |Next(x, Consume(t)).m.ds| == |Next(x, Consume(t)).h.ls|
    ensures QueueOk(Next(x, Consume(t)), w)
  {
    var b := LF.Consume(w);
    assert QueueOk(x, w);
    ConsumerAfter(x.m, b, w);
    MemoryInv(x.m, x.h, b);
    KindStays(x.m, b, w);
    RunPop(x.s, t);
    if LF.Observe(x.m, b).Popped? { PoppedQueue(x, t, w); } else { EmptyQueue(x, t, w); }
    var x' := Next(x, Consume(t));
    assert x'.s.wkr[w].queue == LP.Fifo(x'.h.ls[w]);
    assert x'.m.ds[w].kind == LF.Queue;
    assert x'.m.ds[w].con.Ready?;
  }

  lemma KindStays(m: LF.Memory, b: LF.Action, w: nat)
    requires LF.Enabled(m, b) && w < |m.ds|
    ensures |LF.Next(m, b).ds| == |m.ds| && LF.Next(m, b).ds[w].kind == m.ds[w].kind
  {
  }

  /** The next step of a pop. */
  lemma ConsumeKeeps(x: World, t: nat)
    requires Coupled(x) && Enabled(x, Consume(t))
    ensures Coupled(Next(x, Consume(t)))
  {
    var x', d := Next(x, Consume(t)), x.s.thr[t].pc.w;
    var b := LF.Consume(d);
    MemoryInv(x.m, x.h, b);
    RunPop(x.s, t);
    if !LF.Observe(x.m, b).Silent? { ReachNext(x.s, ES.Run(t)); }
    forall w | 0 <= w < |x'.s.wkr| ensures QueueOk(x', w) {
      if w != d { OtherQueue(x, t, w); }
      else if LF.Observe(x.m, b).Silent? { SilentQueue(x, t, w); }
      else { LoudQueue(x, t, w); }
    }
  }

  lemma StepKeeps(x: World, a: Step)
    requires Coupled(x) && Enabled(x, a)
    ensures Coupled(Next(x, a))
  {
    match a {
      case Serve(b) => ServeKeeps(x, b);
      case Consume(t) => ConsumeKeeps(x, t);
      case Touch(b) => TouchKeeps(x, b);
      case PushDone(p, q) => PushKeeps(x, p, q);
    }
  }

  // ------------------------------------------------------------------ all runs

  ghost predicate IsRun(run: seq<World>, acts: seq<Step>) {
    && |run| == |acts| + 1 && Init(run[0])
    && forall i | 0 <= i < |acts| :: Stepped(run, acts, i)
  }

  ghost predicate Stepped(run: seq<World>, acts: seq<Step>, i: nat)
    requires |run| == |acts| + 1 && i < |acts|
  {
    Enabled(run[i], acts[i]) && |run[i].h.ls| == |run[i].m.ds| && run[i + 1] == Next(run[i], acts[i])
  }

  /** Refinement. In every run of service and memory together, the service is in a
      state that it reaches by itself, with the queue of each worker holding just the
      nodes that the lock-free queue holds, in their order. */
  lemma {:induction false} QueuesRefine(run: seq<World>, acts: seq<Step>, i: nat)
    requires IsRun(run, acts) && i < |run|
    ensures Coupled(run[i])
  {
    if i == 0 {
      InitCoupled(run[0]);
    } else {
      QueuesRefine(run, acts, i - 1);
      assert Stepped(run, acts, i - 1);
      StepKeeps(run[i - 1], acts[i - 1]);
    }
  }

  /** One consumer for each queue. No two threads ever step in a pop from one queue,
      and one in the middle of a pop is stepped by the thread that began it. */
  lemma OneConsumer(run: seq<World>, acts: seq<Step>, i: nat, t: nat, u: nat, w: nat)
    requires IsRun(run, acts) && i < |run| && w < |run[i].s.wkr|
    ensures Popping(run[i].s, t, w) && Popping(run[i].s, u, w) ==> t == u
    ensures w < |run[i].m.ds| && (!run[i].m.ds[w].con.Ready? ==> exists v :: Popping(run[i].s, v, w))
  {
    QueuesRefine(run, acts, i);
    var s := run[i].s;
    EP.ReachableInv(s);
    assert QueueOk(run[i], w);
    if Popping(s, t, w) && Popping(s, u, w) {
      EP.StrandGuarantee(s, w);
      assert EP.Holds(s.thr[t].pc, w) && EP.Holds(s.thr[u].pc, w);
    }
  }
}
