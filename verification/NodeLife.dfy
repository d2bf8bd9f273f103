/** Where nodes go: what a pop hands over, that a node given back goes to the pool it
    came from, and that a push left alone ends. */
module NodeLife {
  import opened LockFree

  /** Memories joined by enabled actions, from any memory on. */
  ghost predicate Steps(ms: seq<Memory>, acts: seq<Action>) {
    |ms| == |acts| + 1 && forall i | 0 <= i < |acts| :: Stepped(ms[i], acts[i], ms[i + 1])
  }

  predicate Stepped(m: Memory, a: Action, m': Memory) { Enabled(m, a) && m' == Next(m, a) }

  // ---------------------------------------------------------------------- the pop

  /** A pop ends with a node or with nothing, and not before: a queue hands over a node
      without a link, and a pool one that knows the pool; a pool that is empty makes
      such a node. */
  lemma PopEnds(m: Memory, d: nat)
    requires Enabled(m, Consume(d))
    ensures var m', e := Next(m, Consume(d)), Observe(m, Consume(d));
            && |m'.ds| == |m.ds| && (m'.ds[d].con == Ready <==> e.Popped? || e.Empty?)
            && (e.Popped? ==> e.d == d && e.n < |m.next| && |m'.next| == |m.next| && m'.next[e.n] == Null && e.n < |m.freer|
                              && m'.freer == if m.ds[d].kind == Pool then m.freer[e.n := At(d)] else m.freer)
            && (e.Empty? ==> e.d == d && if m.ds[d].kind == Pool then m'.next == m.next + [Null] && m'.freer == m.freer + [At(d)]
                                         else m'.next == m.next && m'.freer == m.freer)
            && (e == Silent ==> m'.freer == m.freer)
  {
  }

  // ------------------------------------------------------------------ the way back

  predicate Delivers(m: Memory, a: Action, n: nat)
    requires Enabled(m, a)
  {
    a.Consume? && Observe(m, a) == Popped(a.d, n)
  }

  lemma FreerStep(m: Memory, a: Action, n: nat)
    requires Enabled(m, a) && n < |m.freer| && !Delivers(m, a, n) && !(a.Release? && a.n == n)
    ensures n < |Next(m, a).freer| && Next(m, a).freer[n] == m.freer[n]
  {
  }

  /** A node remembers its pool until it is handed over again or given back. */
  lemma {:induction false} FreerStays(ms: seq<Memory>, acts: seq<Action>, i: nat, k: nat, n: nat)
    requires Steps(ms, acts) && i <= k <= |acts| && n < |ms[i].freer|
    requires forall j | i <= j < k :: Enabled(ms[j], acts[j]) && !Delivers(ms[j], acts[j], n) && !(acts[j].Release? && acts[j].n == n)
    ensures n < |ms[k].freer| && ms[k].freer[n] == ms[i].freer[n]
    decreases k - i
  {
    if i < k {
      FreerStays(ms, acts, i, k - 1, n);
      assert Stepped(ms[k - 1], acts[k - 1], ms[k]);
      FreerStep(ms[k - 1], acts[k - 1], n);
    }
  }

  /** Producer p is on its way to give node n to structure d. */
  predicate Pushing(m: Memory, p: nat, n: nat, d: nat) {
    p < |m.prod| && !m.prod[p].Idle? && m.prod[p].n == n && m.prod[p].d == d
  }

  lemma PushStep(m: Memory, a: Action, p: nat, n: nat, d: nat)
    requires Enabled(m, a) && Pushing(m, p, n, d)
    ensures Pushing(Next(m, a), p, n, d) || (a == Advance(p) && Observe(m, a) == Pushed(d, n))
  {
  }

  /** It gives it there, and to no other. */
  lemma {:induction false} PushStays(ms: seq<Memory>, acts: seq<Action>, i: nat, k: nat, p: nat, n: nat, d: nat)
    requires Steps(ms, acts) && i <= k <= |acts| && Pushing(ms[i], p, n, d)
    requires forall j | i <= j < k :: Enabled(ms[j], acts[j]) && !(acts[j] == Advance(p) && Observe(ms[j], acts[j]).Pushed?)
    ensures Pushing(ms[k], p, n, d)
    decreases k - i
  {
    if i < k {
      PushStays(ms, acts, i, k - 1, p, n, d);
      assert Stepped(ms[k - 1], acts[k - 1], ms[k]);
      PushStep(ms[k - 1], acts[k - 1], p, n, d);
    }
  }

  /** A node that a pool handed over in step i, and that producer p gives back in step
      k, is pushed on that pool: by the first push that p completes after that. */
  lemma ReturnsHome(ms: seq<Memory>, acts: seq<Action>, i: nat, k: nat, j: nat, p: nat, n: nat, d: nat)
    requires Steps(ms, acts) && i < k < j < |acts|
    requires Stepped(ms[i], acts[i], ms[i + 1]) && acts[i] == Consume(d) && Observe(ms[i], acts[i]) == Popped(d, n) && ms[i].ds[d].kind == Pool
    requires forall l | i < l < k :: Enabled(ms[l], acts[l]) && !Delivers(ms[l], acts[l], n) && !(acts[l].Release? && acts[l].n == n)
    requires acts[k] == Release(p, n)
    requires forall l | k < l < j :: Enabled(ms[l], acts[l]) && !(acts[l] == Advance(p) && Observe(ms[l], acts[l]).Pushed?)
    requires Enabled(ms[j], acts[j]) && acts[j] == Advance(p) && Observe(ms[j], acts[j]).Pushed?
    ensures Observe(ms[j], acts[j]) == Pushed(d, n)
    ensures n < |ms[k + 1].next| && n < |ms[k + 1].freer| && ms[k + 1].next[n] == Null && ms[k + 1].freer[n] == Null
  {
    HandedOver(ms[i], d, n);
    FreerStays(ms, acts, i + 1, k, n);
    assert Stepped(ms[k], acts[k], ms[k + 1]);
    PushStays(ms, acts, k + 1, j, p, n, d);
  }

  lemma HandedOver(m: Memory, d: nat, n: nat)
    requires Enabled(m, Consume(d)) && Observe(m, Consume(d)) == Popped(d, n) && m.ds[d].kind == Pool
    ensures n < |Next(m, Consume(d)).freer| && Next(m, Consume(d)).freer[n] == At(d)
  {
  }

  // ---------------------------------------------------------------------- the push

  /** The next step of producer p when it is left alone: its compare-exchange fails if
      the head has changed. */
  function Own(m: Memory, p: nat): Action
    requires p < |m.prod|
  {
    if m.prod[p].Cas? && m.prod[p].d < |m.ds| && m.ds[m.prod[p].d].head != m.prod[p].stale then Fail(p) else Advance(p)
  }

  /** Steps that are left of a push that is left alone. */
  function Left(m: Memory, p: nat): nat
    requires p < |m.prod|
  {
    match m.prod[p]
    case Idle => 0
    case Load(_, _) => 3
    case Link(n, d, stale) => if d < |m.ds| && m.ds[d].head != stale then 4 else 2
    case Cas(n, d, stale) => if d < |m.ds| && m.ds[d].head != stale then 3 else 1
  }

  /** Each of its steps leaves one step less: so it ends after four at most, with its
      node at the head and what was there behind it. */
  lemma PushEnds(m: Memory, p: nat)
    requires p < |m.prod| && !m.prod[p].Idle? && ProducerOk(m, m.prod[p])
    requires m.prod[p].Cas? ==> m.next[m.prod[p].n] == m.prod[p].stale
    ensures Enabled(m, Own(m, p)) && Left(m, p) <= 4
    ensures var m', x := Next(m, Own(m, p)), m.prod[p];
            && |m'.prod| == |m.prod| && Left(m', p) == Left(m, p) - 1
            && (Left(m, p) == 1 ==> m'.prod[p] == Idle && m' == m.(ds := m.ds[x.d := m.ds[x.d].(head := At(x.n))], prod := m.prod[p := Idle])
                                    && m'.next[x.n] == m.ds[x.d].head)
            && (Left(m, p) > 1 ==> m'.ds == m.ds && Pushing(m', p, x.n, x.d) && ProducerOk(m', m'.prod[p])
                                   && (m'.prod[p].Cas? ==> m'.next[x.n] == m'.prod[p].stale))
  {
  }
}
