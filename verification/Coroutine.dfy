/** One life of a coroutine, from `make_context` to its release, on the strand
    it belongs to. Any number of threads compete for the strand's worker, post
    other events to it and resume the coroutine, possibly before it yields.

    The one rule for clients is that of `yield` and `resume`: a resume answers
    an announced yield that no resume has answered yet. */
module Coroutine {

  datatype Item = Other | Self          // an event of the strand, or the coroutine's own node

  /** How far a thread inside the coroutine's context has got. */
  datatype Stage = Body | Ending | Leaving

  /** Where a thread stands towards the strand. */
  datatype Place =
    | Outside
    | Working                           // has the token, about to pop
    | InOther                           // handles another event
    | Handle                            // in `handle`, about to store the thread
    | Test                              // about to test `stop_`
    | Jump                              // has stored the host context, about to jump in
    | Inside(stage: Stage)              // runs the coroutine
    | Free                              // saw `stop_`, about to release to the pool

  /** What clients and coroutine have agreed on for its next yield. */
  datatype Deal = Quiet | Announced | Answered

  /** `thread`, `host` and `stop` are the fields thrctx_, host_ctx_ and stop_. */
  datatype State = State(
    token: bool, queue: seq<Item>, at: seq<Place>,
    thread: int, host: int, stop: bool, deal: Deal, ended: bool, released: nat)

  datatype Action =
    | Take(t: nat) | Pop(t: nat) | Done(t: nat) | Return(t: nat)
    | Store(t: nat) | Check(t: nat) | Enter(t: nat)
    | Announce(t: nat) | Yield(t: nat) | Finish(t: nat) | PostSelf(t: nat)
    | Release(t: nat)
    | PostOther | Resume

  ghost predicate Init(s: State) {
    && (forall i | 0 <= i < |s.at| :: s.at[i] == Outside)
    && s == State(true, [Self], s.at, -1, -1, false, Answered, false, 0)
  }

  predicate Enabled(s: State, a: Action) {
    match a
    case PostOther => true
    case Resume => s.deal == Announced
    case _ =>
      && a.t < |s.at|
      && var x := s.at[a.t];
      match a
      case Take(_) => x == Outside && s.token
      case Pop(_) => x == Working && s.queue != []
      case Done(_) => x == InOther
      case Return(_) => x == Working && s.queue == []
      case Store(_) => x == Handle
      case Check(_) => x == Test
      case Enter(_) => x == Jump
      case Announce(_) => x == Inside(Body) && s.deal == Quiet
      case Yield(_) => x == Inside(Body) || x == Inside(Leaving)
      case Finish(_) => x == Inside(Body) && s.deal == Quiet
      case PostSelf(_) => x == Inside(Ending)
      case Release(_) => x == Free
      case _ => false
  }

  function Set(s: State, t: nat, x: Place): State
    requires t < |s.at|
  {
    s.(at := s.at[t := x])
  }

  /** `Yield` jumps to the stored host context: the thread that owns it comes
      back from `handle`, and the thread that jumped is gone from the coroutine. */
  function Next(s: State, a: Action): State
    requires Enabled(s, a)
  {
    match a
    case PostOther => s.(queue := s.queue + [Other])
    case Resume => s.(queue := s.queue + [Self], deal := Answered)
    case Take(t) => Set(s.(token := false), t, Working)
    case Pop(t) => Set(s.(queue := s.queue[1..]), t, if s.queue[0] == Self then Handle else InOther)
    case Done(t) => Set(s, t, Working)
    case Return(t) => Set(s.(token := true), t, Outside)
    case Store(t) => Set(s.(thread := t), t, Test)
    case Check(t) => if s.stop then Set(s, t, Free) else Set(s.(host := t), t, Jump)
    case Enter(t) => Set(s.(deal := Quiet), t, Inside(Body))
    case Announce(t) => s.(deal := Announced)
    case Yield(t) =>
      var s' := Set(s.(ended := s.at[t] == Inside(Leaving)), t, Outside);
      if 0 <= s.host < |s.at| then Set(s', s.host, Working) else s'
    case Finish(t) => Set(s.(stop := true), t, Inside(Ending))
    case PostSelf(t) => Set(s.(queue := s.queue + [Self], deal := Answered), t, Inside(Leaving))
    case Release(t) => Set(s.(released := s.released + 1), t, Working)
  }

  ghost predicate IsRun(run: seq<State>, acts: seq<Action>) {
    && |run| == |acts| + 1 && Init(run[0])
    && forall i | 0 <= i < |acts| :: Enabled(run[i], acts[i]) && run[i + 1] == Next(run[i], acts[i])
  }

  // ------------------------------------------------------------- the invariant

  /** How many times the coroutine's node is in the queue. */
  function Copies(q: seq<Item>): nat { multiset(q)[Self] }

  /** Thread in place x is handling the coroutine's node. */
  predicate Has(x: Place) { x == Handle || x == Test || x == Jump || x == Free }

  /** Between the answer to a yield and the entry that follows it the node is in
      the queue or in the hands of one thread; when it is quiet it is in neither. */
  ghost predicate NodeInv(s: State, t: nat)
    requires t < |s.at|
  {
    var x := s.at[t];
    && (Has(x) ==> s.deal == Answered && Copies(s.queue) == 0 && s.released == 0)
    && (x == Test || x == Jump || x == Free || x.Inside? ==> s.thread == t)
    && (x == Jump || x.Inside? ==> s.host == t)
    && (x == Jump ==> !s.stop)
    && (x == Free ==> s.stop && s.ended)
    && (x.Inside? ==> s.released == 0 && !s.ended && (s.stop <==> x.stage != Body))
    && (x == Inside(Ending) ==> s.deal == Quiet)
    && (x == Inside(Leaving) ==> s.deal == Answered)
    && (x.Inside? && s.deal == Answered ==> Copies(s.queue) == 1)
  }

  ghost predicate Inv(s: State) {
    && (forall t | 0 <= t < |s.at| :: NodeInv(s, t) && (s.at[t] != Outside ==> !s.token))
    && (forall i, j | 0 <= i < j < |s.at| :: s.at[i] == Outside || s.at[j] == Outside)
    && (s.deal != Answered || s.released > 0 ==> Copies(s.queue) == 0)
    && (s.deal == Answered && s.released == 0 ==>
          Copies(s.queue) == 1 || exists t :: 0 <= t < |s.at| && Has(s.at[t]))
    && Copies(s.queue) <= 1 && s.released <= 1
    && (s.ended ==> s.stop && s.deal == Answered)
    && (s.released > 0 ==> s.ended)
    && (s.stop && !s.ended ==> exists t :: 0 <= t < |s.at| && s.at[t].Inside?)
  }

  lemma InitInv(s: State)
    requires Init(s)
    ensures Inv(s)
  {
  }

  lemma PopCopies(q: seq<Item>)
    requires q != []
    ensures Copies(q[1..]) == Copies(q) - (if q[0] == Self then 1 else 0)
  {
    assert q == [q[0]] + q[1..];
  }

  /** A thread other than the one that steps: it is outside, and stays there. */
  lemma StepOther(s: State, a: Action, t: nat)
    requires Inv(s) && Enabled(s, a) && !a.PostOther? && !a.Resume? && t < |s.at| && t != a.t
    ensures s.at[t] == Outside && Next(s, a).at[t] == Outside
  {
    assert NodeInv(s, a.t);
    assert s.at[t] == Outside;
  }

  lemma StepOwn(s: State, a: Action)
    requires Inv(s) && Enabled(s, a) && !a.PostOther? && !a.Resume?
    ensures NodeInv(Next(s, a), a.t) && (Next(s, a).at[a.t] != Outside ==> !Next(s, a).token)
  {
    if a.Pop? { PopCopies(s.queue); }
    assert NodeInv(s, a.t);
  }

  lemma StepNode(s: State, a: Action, t: nat)
    requires Inv(s) && Enabled(s, a) && t < |s.at|
    ensures NodeInv(Next(s, a), t) && (Next(s, a).at[t] != Outside ==> !Next(s, a).token)
  {
    if a.PostOther? || a.Resume? {
      assert NodeInv(s, t);
    } else if t == a.t {
      StepOwn(s, a);
    } else {
      StepOther(s, a, t);
    }
  }

  /** While an answered node is not in the queue it stays with a thread; a
      coroutine that has stopped stays inside until its final yield. */
  lemma StepHolder(s: State, a: Action)
    requires Inv(s) && Enabled(s, a)
    ensures var s' := Next(s, a);
            && (s'.deal == Answered && s'.released == 0 ==>
                  Copies(s'.queue) == 1 || exists t :: 0 <= t < |s'.at| && Has(s'.at[t]))
            && (s'.stop && !s'.ended ==> exists t :: 0 <= t < |s'.at| && s'.at[t].Inside?)
  {
    var s' := Next(s, a);
    if a.Pop? { PopCopies(s.queue); }
    if !a.PostOther? && !a.Resume? { assert NodeInv(s, a.t); }
    if s.deal == Answered && s.released == 0 && Copies(s.queue) == 0 {
      var t :| 0 <= t < |s.at| && Has(s.at[t]);
      assert NodeInv(s, t);
      assert ((a.Enter? || a.Release?) && a.t == t) || Has(s'.at[t]);
    }
    if a.Pop? && s.queue[0] == Self { assert Has(s'.at[a.t]); }
    if a.Finish? { assert s'.at[a.t].Inside?; }
    if s.stop && !s.ended {
      var t :| 0 <= t < |s.at| && s.at[t].Inside?;
      assert a.Yield? || s'.at[t].Inside?;
    }
  }

  /** One thread at a time. */
  lemma StepAlone(s: State, a: Action)
    requires Inv(s) && Enabled(s, a)
    ensures var s' := Next(s, a); forall i, j | 0 <= i < j < |s'.at| :: s'.at[i] == Outside || s'.at[j] == Outside
  {
    if !a.PostOther? && !a.Resume? { assert NodeInv(s, a.t); }
  }

  lemma StepCopies(s: State, a: Action)
    requires Inv(s) && Enabled(s, a)
    ensures var s' := Next(s, a);
            (s'.deal != Answered || s'.released > 0 ==> Copies(s'.queue) == 0) && Copies(s'.queue) <= 1
  {
    if a.Pop? { PopCopies(s.queue); }
    if !a.PostOther? && !a.Resume? { assert NodeInv(s, a.t); }
  }

  lemma StepEnd(s: State, a: Action)
    requires Inv(s) && Enabled(s, a)
    ensures var s' := Next(s, a);
            s'.released <= 1 && (s'.ended ==> s'.stop && s'.deal == Answered) && (s'.released > 0 ==> s'.ended)
  {
    if !a.PostOther? && !a.Resume? { assert NodeInv(s, a.t); }
  }

  lemma StepKeeps(s: State, a: Action)
    requires Inv(s) && Enabled(s, a)
    ensures Inv(Next(s, a))
  {
    var s' := Next(s, a);
    forall t | 0 <= t < |s'.at| ensures NodeInv(s', t) && (s'.at[t] != Outside ==> !s'.token) { StepNode(s, a, t); }
    StepHolder(s, a);
    StepAlone(s, a);
    StepCopies(s, a);
    StepEnd(s, a);
  }

  lemma {:induction false} RunInv(run: seq<State>, acts: seq<Action>, i: nat)
    requires IsRun(run, acts) && i < |run|
    ensures Inv(run[i])
  {
    if i == 0 {
      InitInv(run[0]);
    } else {
      RunInv(run, acts, i - 1);
      StepKeeps(run[i - 1], acts[i - 1]);
    }
  }

  // ------------------------------------------------------------- main results

  /** A thread enters the coroutine only when no thread is inside it, only before
      its last yield, and its node is then in no queue and with no other thread. */
  lemma NeverEnteredTwice(run: seq<State>, acts: seq<Action>, i: nat, t: nat)
    requires IsRun(run, acts) && i < |run| && t < |run[i].at| && Enabled(run[i], Enter(t))
    ensures forall j | 0 <= j < |run[i].at| :: !run[i].at[j].Inside? && (Has(run[i].at[j]) ==> j == t)
    ensures Self !in run[i].queue && !run[i].ended && run[i].released == 0
  {
    RunInv(run, acts, i);
    var s := run[i];
    assert NodeInv(s, t);
    forall j | 0 <= j < |s.at| ensures !s.at[j].Inside? && (Has(s.at[j]) ==> j == t) {
      assert j != t ==> s.at[j] == Outside;
    }
  }

  /** A yield always jumps to the host context of the thread that runs the
      coroutine, so that thread, and no other, comes back from `handle`; and the
      coroutine's own view of its thread is right while it runs. */
  lemma YieldsToItsHost(run: seq<State>, acts: seq<Action>, i: nat, t: nat)
    requires IsRun(run, acts) && i < |run| && t < |run[i].at| && run[i].at[t].Inside?
    ensures run[i].host == t && run[i].thread == t
    ensures forall j | 0 <= j < |run[i].at| && j != t :: run[i].at[j] == Outside
    ensures Enabled(run[i], Yield(t)) ==> Next(run[i], Yield(t)).at == run[i].at[t := Working]
  {
    RunInv(run, acts, i);
    assert NodeInv(run[i], t);
  }

  /** The coroutine goes back to the pool only after its final yield, at most
      once, and from then on no queue and no thread has its node. */
  lemma ReleasedOnceAtTheEnd(run: seq<State>, acts: seq<Action>, i: nat, t: nat)
    requires IsRun(run, acts) && i < |run| && t < |run[i].at|
    ensures Enabled(run[i], Release(t)) ==> run[i].ended && run[i].released == 0 && !Enabled(run[i], Resume)
    ensures run[i].released > 0 ==>
              run[i].released == 1 && Self !in run[i].queue && !Has(run[i].at[t]) && !run[i].at[t].Inside?
  {
    RunInv(run, acts, i);
    assert NodeInv(run[i], t);
  }

  /** An answered yield is not lost: until the coroutine is entered or released
      its node is in the queue, once, or with the one thread that handles it. */
  lemma ResumeIsKept(run: seq<State>, acts: seq<Action>, i: nat)
    requires IsRun(run, acts) && i < |run| && run[i].deal == Answered && run[i].released == 0
    ensures (exists t :: 0 <= t < |run[i].at| && Has(run[i].at[t])) <==> Copies(run[i].queue) == 0
    ensures Copies(run[i].queue) <= 1
  {
    RunInv(run, acts, i);
    forall t | 0 <= t < |run[i].at| && Has(run[i].at[t]) ensures Copies(run[i].queue) == 0 {
      assert NodeInv(run[i], t);
    }
  }

  // ------------------------------------------------------------------ the strand

  /** What an action puts into the queue. */
  function Posted(a: Action): seq<Item> {
    match a
    case PostOther => [Other]
    case Resume => [Self]
    case PostSelf(_) => [Self]
    case _ => []
  }

  /** What the thread that takes an item is seen to do with it. */
  function Seen(a: Action, after: State): seq<Item> {
    if !a.Pop? || a.t >= |after.at| then [] else if after.at[a.t] == Handle then [Self] else [Other]
  }

  function AllPosted(acts: seq<Action>): seq<Item> {
    if acts == [] then [] else AllPosted(acts[..|acts| - 1]) + Posted(acts[|acts| - 1])
  }

  function AllSeen(run: seq<State>, acts: seq<Action>): seq<Item>
    requires |run| == |acts| + 1
  {
    if acts == [] then [] else AllSeen(run[..|acts|], acts[..|acts| - 1]) + Seen(acts[|acts| - 1], run[|acts|])
  }

  lemma SeenNext(s: State, a: Action)
    requires Enabled(s, a)
    ensures s.queue + Posted(a) == Seen(a, Next(s, a)) + Next(s, a).queue
  {
    if a.Pop? { assert s.queue == [s.queue[0]] + s.queue[1..]; }
    assert Next(s, a).queue == [] + Next(s, a).queue;
    assert s.queue + [] == s.queue;
  }

  lemma Shift(a: seq<Item>, b: seq<Item>, q: seq<Item>, p: seq<Item>, c: seq<Item>, r: seq<Item>)
    requires a + q == b && q + p == c + r
    ensures (a + c) + r == b + p
  {
    assert (a + c) + r == a + (c + r);
    assert (a + q) + p == a + (q + p);
  }

  lemma RunBefore(run: seq<State>, acts: seq<Action>)
    requires IsRun(run, acts) && acts != []
    ensures var m := |acts|;
            && IsRun(run[..m], acts[..m - 1]) && run[..m][m - 1] == run[m - 1]
            && Enabled(run[m - 1], acts[m - 1]) && run[m] == Next(run[m - 1], acts[m - 1])
  {
  }

  /** The strand handles what is posted to it in that order, the coroutine's node among
      it: what has been taken and what is in the queue make all that was posted, after
      the node that starts the coroutine. */
  lemma {:induction false} PostsInOrder(run: seq<State>, acts: seq<Action>)
    requires IsRun(run, acts)
    ensures AllSeen(run, acts) + run[|acts|].queue == [Self] + AllPosted(acts)
    decreases |acts|
  {
    var m := |acts|;
    if m > 0 {
      var s, a := run[m - 1], acts[m - 1];
      RunBefore(run, acts);
      PostsInOrder(run[..m], acts[..m - 1]);
      SeenNext(s, a);
      var posted := AllPosted(acts[..m - 1]);
      Shift(AllSeen(run[..m], acts[..m - 1]), [Self] + posted, s.queue, Posted(a), Seen(a, run[m]), run[m].queue);
      assert ([Self] + posted) + Posted(a) == [Self] + (posted + Posted(a));
    }
  }

  predicate Idle(at: seq<Place>) { forall j | 0 <= j < |at| :: at[j] == Outside }

  lemma TokenStep(s: State, a: Action)
    requires Inv(s) && Enabled(s, a) && (s.token <==> Idle(s.at))
    ensures Next(s, a).token <==> Idle(Next(s, a).at)
  {
    if !a.PostOther? && !a.Resume? {
      var s' := Next(s, a);
      assert NodeInv(s, a.t);
      assert s'.at[a.t] != Outside || a.Return?;
      if a.Return? {
        forall j | 0 <= j < |s'.at| ensures s'.at[j] == Outside { assert j == a.t || s.at[j] == Outside; }
      }
    }
  }

  lemma {:induction false} TokenInv(run: seq<State>, acts: seq<Action>, i: nat)
    requires IsRun(run, acts) && i < |run|
    ensures run[i].token <==> Idle(run[i].at)
  {
    if i > 0 {
      TokenInv(run, acts, i - 1);
      RunInv(run, acts, i - 1);
      TokenStep(run[i - 1], acts[i - 1]);
    }
  }

  /** The strand's worker is free if and only if no thread is at work for it, and a
      thread gives it back only when nothing is left to do. */
  lemma WorkerComesBack(run: seq<State>, acts: seq<Action>, i: nat)
    requires IsRun(run, acts) && i < |run|
    ensures run[i].token <==> Idle(run[i].at)
    ensures i > 0 && run[i].token && !run[i - 1].token ==> run[i - 1].queue == run[i].queue == []
  {
    TokenInv(run, acts, i);
    if i > 0 { assert Enabled(run[i - 1], acts[i - 1]) && run[i] == Next(run[i - 1], acts[i - 1]); }
  }
}
