/** Event nodes and their one link field: any number of lock-free queues and
    node pools that share it, each with one consumer and any number of
    producers stopped anywhere in their compare-exchange loops.

    The machine below is the memory of the program and nothing else. Module
    LockFreeProofs relates it to plain sequences. */
module LockFree {

  datatype Ptr = Null | At(n: nat)

  datatype Kind = Queue | Pool

  /** Where the consumer of a queue (`pri_pop`) or pool (`pri_get`) stands. */
  datatype Consumer =
    | Ready
    | Exchange                          // the cache is empty, about to exchange the head
    | Inspect(e: nat)                   // took the list at e, about to read its link
    | Reverse(last: Ptr, first: Ptr)    // in the reversal loop of `pri_pop`

  /** Where a producer stands that gives node n to structure d. */
  datatype Producer =
    | Idle
    | Load(n: nat, d: nat)              // about to load the head
    | Link(n: nat, d: nat, stale: Ptr)  // about to set the node's link
    | Cas(n: nat, d: nat, stale: Ptr)   // about to compare and exchange the head

  datatype Struct = Struct(kind: Kind, head: Ptr, cache: Ptr, con: Consumer)

  /** `freer` of a node is the pool it goes back to, or Null. */
  datatype Memory = Memory(ds: seq<Struct>, next: seq<Ptr>, freer: seq<Ptr>, prod: seq<Producer>)

  datatype Action =
    | Create                            // a node made outside every pool
    | Push(p: nat, n: nat, d: nat)      // producer p starts to push node n on queue d
    | Release(p: nat, n: nat)           // producer p starts to give n back to its pool
    | Dispose(n: nat)                   // a node without a pool is deleted
    | Advance(p: nat)                   // the next step of producer p
    | Fail(p: nat)                      // its compare-exchange fails
    | Consume(d: nat)                   // the next step of the consumer of d

  /** What a step does as seen from outside. */
  datatype Event = Silent | Pushed(d: nat, n: nat) | Popped(d: nat, n: nat) | Empty(d: nat)

  ghost predicate Init(m: Memory) {
    && m.next == [] && m.freer == []
    && (forall d | 0 <= d < |m.ds| :: m.ds[d] == Struct(m.ds[d].kind, Null, Null, Ready))
    && (forall p | 0 <= p < |m.prod| :: m.prod[p] == Idle)
  }

  predicate NodeOk(m: Memory, n: nat) { n < |m.next| && n < |m.freer| }

  predicate PtrOk(m: Memory, x: Ptr) { x.At? ==> NodeOk(m, x.n) }

  predicate Enabled(m: Memory, a: Action) {
    match a
    case Create => true
    case Push(p, n, d) => p < |m.prod| && m.prod[p] == Idle && NodeOk(m, n) && d < |m.ds| && m.ds[d].kind == Queue
    case Release(p, n) => p < |m.prod| && m.prod[p] == Idle && NodeOk(m, n) && m.freer[n].At? && m.freer[n].n < |m.ds|
    case Dispose(n) => NodeOk(m, n) && m.freer[n] == Null
    case Advance(p) => p < |m.prod| && !m.prod[p].Idle? && ProducerOk(m, m.prod[p])
                       && (m.prod[p].Cas? ==> m.ds[m.prod[p].d].head == m.prod[p].stale)
    case Fail(p) => p < |m.prod| && m.prod[p].Cas? && ProducerOk(m, m.prod[p])
    case Consume(d) => d < |m.ds| && PtrOk(m, m.ds[d].head) && PtrOk(m, m.ds[d].cache) && ConsumerOk(m, m.ds[d].con)
  }

  predicate ProducerOk(m: Memory, x: Producer) { x.Idle? || (NodeOk(m, x.n) && x.d < |m.ds|) }

  predicate ConsumerOk(m: Memory, c: Consumer) {
    match c
    case Inspect(e) => NodeOk(m, e)
    case Reverse(last, first) => PtrOk(m, last) && PtrOk(m, first) && (last.At? || first.At?)
    case _ => true
  }

  /** Node n leaves structure d for the hands of the caller. `on_get` of a pool
      clears the link and remembers the pool. */
  function Deliver(m: Memory, d: nat, n: nat, x: Struct): Memory
    requires d < |m.ds| && NodeOk(m, n)
  {
    var m' := m.(ds := m.ds[d := x.(con := Ready)]);
    if x.kind == Pool then m'.(next := m.next[n := Null], freer := m.freer[n := At(d)]) else m'
  }

  function Next(m: Memory, a: Action): Memory
    requires Enabled(m, a)
  {
    match a
    case Create => m.(next := m.next + [Null], freer := m.freer + [Null])
    case Push(p, n, d) => m.(prod := m.prod[p := Load(n, d)])
    case Release(p, n) =>
      m.(prod := m.prod[p := Load(n, m.freer[n].n)], next := m.next[n := Null], freer := m.freer[n := Null])
    case Dispose(n) => m
    case Advance(p) => ProducerNext(m, p)
    case Fail(p) => var x := m.prod[p]; m.(prod := m.prod[p := Link(x.n, x.d, m.ds[x.d].head)])
    case Consume(d) => ConsumerNext(m, d)
  }

  function ProducerNext(m: Memory, p: nat): Memory
    requires Enabled(m, Advance(p))
  {
    match m.prod[p]
    case Load(n, d) => m.(prod := m.prod[p := Link(n, d, m.ds[d].head)])
    case Link(n, d, stale) => m.(next := m.next[n := stale], prod := m.prod[p := Cas(n, d, stale)])
    case Cas(n, d, _) => m.(ds := m.ds[d := m.ds[d].(head := At(n))], prod := m.prod[p := Idle])
  }

  function ConsumerNext(m: Memory, d: nat): Memory
    requires Enabled(m, Consume(d))
  {
    var x := m.ds[d];
    match x.con
    case Ready =>
      if x.cache == Null then m.(ds := m.ds[d := x.(con := Exchange)])
      else
        var n := x.cache.n;
        Deliver(m.(next := m.next[n := Null]), d, n, x.(cache := m.next[n]))
    case Exchange =>
      if x.head.At? then m.(ds := m.ds[d := x.(head := Null, con := Inspect(x.head.n))])
      else if x.kind == Queue then m.(ds := m.ds[d := x.(con := Ready)])
      else m.(ds := m.ds[d := x.(con := Ready)], next := m.next + [Null], freer := m.freer + [At(d)])
    case Inspect(e) =>
      if m.next[e] == Null then Deliver(m, d, e, x)
      else if x.kind == Queue then m.(ds := m.ds[d := x.(con := Reverse(At(e), Null))])
      else Deliver(m, d, e, x.(cache := m.next[e]))
    case Reverse(last, first) =>
      if last.At?
      then m.(ds := m.ds[d := x.(con := Reverse(m.next[last.n], last))], next := m.next[last.n := first])
      else
        var n := first.n;
        Deliver(m.(next := m.next[n := Null]), d, n, x.(cache := m.next[n]))
  }

  /** A push takes effect when the compare-exchange succeeds; a pop takes effect
      when a node, or nothing, is returned. */
  function Observe(m: Memory, a: Action): Event
    requires Enabled(m, a)
  {
    match a
    case Advance(p) => if m.prod[p].Cas? then Pushed(m.prod[p].d, m.prod[p].n) else Silent
    case Consume(d) =>
      var x := m.ds[d];
      (match x.con
       case Ready => if x.cache.At? then Popped(d, x.cache.n) else Silent
       case Exchange => if x.head == Null then Empty(d) else Silent
       case Inspect(e) => if m.next[e] == Null || x.kind == Pool then Popped(d, e) else Silent
       case Reverse(last, first) => if last == Null then Popped(d, first.n) else Silent)
    case _ => Silent
  }
}
