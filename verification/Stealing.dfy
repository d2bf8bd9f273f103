/** Which tokens a thread tries in a turn, whatever other threads and callers do in
    the meantime. */
module Stealing {
  import opened EventService

  /** The records of thread t of n along its own steps, and the workers it touched.
      Between two steps others may change all of a record but where it stands. */
  ghost predicate Follows(steal: bool, n: nat, t: nat, xs: seq<Thread>, ks: seq<Worker>) {
    && |xs| == |ks| + 1
    && forall i | 0 <= i < |ks| :: CanRun(xs[i]) && xs[i + 1].pc == ThreadStep(steal, n, t, xs[i], ks[i]).0.pc
  }

  /** The workers whose tokens those steps try to take, in order. */
  function Tried(xs: seq<Thread>): seq<nat> {
    if |xs| <= 1 then []
    else Tried(xs[..|xs| - 1]) + if xs[|xs| - 2].pc.Take? then [xs[|xs| - 2].pc.w] else []
  }

  predicate Ascending(ws: seq<nat>) { forall i, j | 0 <= i < j < |ws| :: ws[i] < ws[j] }

  /** The workers below m but t, each once and in order. */
  ghost predicate AllBelow(ws: seq<nat>, m: nat, t: nat) {
    Ascending(ws) && forall w: nat :: w in ws <==> w < m && w != t
  }

  predicate Working(pc: Pc) { pc.Pop? || pc.Handling? || pc.Credit? || pc.Return? }

  /** What has been tried by the time the thread stands at pc. */
  ghost predicate SoFar(steal: bool, n: nat, t: nat, pc: Pc, ws: seq<nat>) {
    || (pc == Fetch(0) && ws == [])
    || (pc.Take? && pc.level == Minor && steal && pc.w < n && pc.w != t && AllBelow(ws, pc.w, t))
    || (Working(pc) && pc.level == Minor && steal && pc.w < n && pc.w != t && AllBelow(ws, pc.w + 1, t))
    || (pc == Top && if steal then AllBelow(ws, n, t) else ws == [])
  }

  lemma OneMore(ws: seq<nat>, m: nat, t: nat)
    requires AllBelow(ws, m, t) && m != t
    ensures AllBelow(ws + [m], m + 1, t)
  {
    assert forall i | 0 <= i < |ws| :: ws[i] in ws;
  }

  lemma SkipOwn(ws: seq<nat>, m: nat, t: nat)
    requires AllBelow(ws, m, t) && m == t
    ensures AllBelow(ws, m + 1, t)
  {
  }

  lemma SoFarNext(steal: bool, n: nat, t: nat, x: Thread, k: Worker, ws: seq<nat>)
    requires t < n && CanRun(x) && x.pc != Top && SoFar(steal, n, t, x.pc, ws)
    ensures SoFar(steal, n, t, ThreadStep(steal, n, t, x, k).0.pc, ws + if x.pc.Take? then [x.pc.w] else [])
  {
    assert ws + [] == ws;
    if x.pc.Take? {
      OneMore(ws, x.pc.w, t);
      if x.pc.w + 1 == t { SkipOwn(ws + [x.pc.w], t, t); }
    } else if Working(x.pc) {
      if x.pc.w + 1 == t { SkipOwn(ws, t, t); }
    } else {
      var none: seq<nat> := [];
      assert ws + none == ws;
      if x.pc == Fetch(0) {
        assert AllBelow(none, 0, t);
        if t == 0 { SkipOwn(none, 0, 0); }
      }
    }
  }

  lemma {:induction false} TriedSoFar(steal: bool, n: nat, t: nat, xs: seq<Thread>, ks: seq<Worker>)
    requires t < n && Follows(steal, n, t, xs, ks) && xs[0].pc == Fetch(0)
    requires forall i | 0 < i < |ks| :: xs[i].pc != Top
    ensures SoFar(steal, n, t, xs[|ks|].pc, Tried(xs))
    decreases |ks|
  {
    var m := |ks|;
    if m > 0 {
      assert xs[..m][..m] == xs[..m];
      TriedSoFar(steal, n, t, xs[..m], ks[..m - 1]);
      SoFarNext(steal, n, t, xs[m - 1], ks[m - 1], Tried(xs[..m]));
    }
  }

  /** A thread that had nothing to do itself tries the token of every other worker,
      once and in ascending order, before it is back at the top of its loop; and none
      if it must not steal. */
  lemma TriesAllOthers(steal: bool, n: nat, t: nat, xs: seq<Thread>, ks: seq<Worker>)
    requires t < n && Follows(steal, n, t, xs, ks) && xs[0].pc == Fetch(0)
    requires (forall i | 0 < i < |ks| :: xs[i].pc != Top) && xs[|ks|].pc == Top
    ensures Ascending(Tried(xs)) && forall w: nat :: w in Tried(xs) <==> steal && w < n && w != t
  {
    TriedSoFar(steal, n, t, xs, ks);
  }

  /** One that did something goes back at once. */
  lemma TriesNoneAfterWork(steal: bool, n: nat, t: nat, xs: seq<Thread>, ks: seq<Worker>)
    requires Follows(steal, n, t, xs, ks) && |ks| > 0 && xs[0].pc.Fetch? && xs[0].pc.works > 0
    ensures xs[1].pc == Top && Tried(xs[..2]) == []
  {
    assert xs[..2][..1] == [xs[0]];
  }

  /** At the start of a turn it tries its own token, and no other until it has taken
      off what it did. */
  lemma TriesOwnFirst(steal: bool, n: nat, t: nat, xs: seq<Thread>, ks: seq<Worker>)
    requires Follows(steal, n, t, xs, ks) && xs[0].pc == Job && !xs[0].stop
    requires (forall i | 0 < i < |ks| :: !xs[i].pc.Fetch?) && xs[|ks|].pc.Fetch?
    ensures Tried(xs) == [t]
  {
    OwnSoFar(steal, n, t, xs, ks);
  }

  lemma {:induction false} OwnSoFar(steal: bool, n: nat, t: nat, xs: seq<Thread>, ks: seq<Worker>)
    requires Follows(steal, n, t, xs, ks) && xs[0].pc == Job && !xs[0].stop && forall i | 0 < i < |ks| :: !xs[i].pc.Fetch?
    ensures if |ks| == 0 then Tried(xs) == [] else OwnTurn(xs[|ks|].pc, t, Tried(xs))
    decreases |ks|
  {
    var m := |ks|;
    if m > 0 {
      assert xs[..m][..m] == xs[..m];
      OwnSoFar(steal, n, t, xs[..m], ks[..m - 1]);
      OwnNext(steal, n, t, xs[m - 1], ks[m - 1], Tried(xs[..m]));
    }
  }

  predicate OwnTurn(pc: Pc, t: nat, ws: seq<nat>) {
    if pc.Take? then pc == Take(t, Prior) && ws == []
    else (pc.Subtract? || pc.Fetch? || (Working(pc) && pc.w == t && pc.level == Prior)) && ws == [t]
  }

  lemma OwnNext(steal: bool, n: nat, t: nat, x: Thread, k: Worker, ws: seq<nat>)
    requires CanRun(x) && !x.pc.Fetch? && ((x.pc == Job && !x.stop && ws == []) || OwnTurn(x.pc, t, ws))
    ensures OwnTurn(ThreadStep(steal, n, t, x, k).0.pc, t, ws + if x.pc.Take? then [x.pc.w] else [])
  {
    assert ws + [] == ws;
  }

  // --------------------------------------------------------------- and it comes back

  /** The machine after so many steps of thread t and none of others. */
  function Alone(s: State, t: nat, steps: nat): (r: State)
    requires t < |s.thr| == |s.wkr|
    ensures |r.thr| == |s.thr| && |r.wkr| == |s.wkr|
    decreases steps
  {
    if steps == 0 || !Enabled(s, Run(t)) then s else Alone(Next(s, Run(t)), t, steps - 1)
  }

  /** The worker that a thread is at in its round over the others. */
  function At(pc: Pc, n: nat): nat { if pc.Take? || Working(pc) then pc.w else if pc.Fetch? then 0 else n }

  function Stage(pc: Pc): nat {
    match pc
    case Fetch(_) => 6
    case Take(_, _) => 5
    case Handling(_, _, _, _) => 4
    case Pop(_, _, _) => 3
    case Credit(_, _, _) => 2
    case Return(_, _, _) => 1
    case _ => 0
  }

  /** A thread left alone gets through the round: so it is back at the top after
      some number of its own steps. */
  lemma {:induction false} RoundEnds(s: State, t: nat) returns (steps: nat)
    requires t < |s.thr| == |s.wkr|
    requires var pc := s.thr[t].pc; pc == Top || pc.Fetch? || ((pc.Take? || Working(pc)) && pc.w < |s.thr| && pc.level == Minor)
    ensures Alone(s, t, steps).thr[t].pc == Top
    decreases |s.thr| + 1 - At(s.thr[t].pc, |s.thr|), if s.thr[t].pc.Fetch? then 1 else 0,
              if s.thr[t].pc.Take? then 1 else 0,
              if Working(s.thr[t].pc) then |s.wkr[s.thr[t].pc.w].queue| else 0,
              if s.thr[t].pc.Handling? then 1 else 0, Stage(s.thr[t].pc)
  {
    if s.thr[t].pc == Top {
      steps := 0;
    } else {
      assert Enabled(s, Run(t));
      var more := RoundEnds(Next(s, Run(t)), t);
      steps := more + 1;
    }
  }
}
