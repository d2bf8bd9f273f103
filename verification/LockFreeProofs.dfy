/** The lock-free queues are first-in first-out queues, and every node is in
    exactly one place, in every interleaving. */
module LockFreeProofs {
  import opened LockFree

  // --------------------------------------------------------------- the history

  /** The one place a node is in. */
  datatype Place = Hand | Carried(p: nat) | InHead(d: nat) | InCache(d: nat) | InTaken(d: nat) | Gone

  /** The nodes of a structure along the links: of its head list, of its cache,
      and of the list its consumer has taken, not yet and already reversed. */
  datatype Lists = Lists(head: seq<nat>, cache: seq<nat>, last: seq<nat>, first: seq<nat>)

  datatype History = History(place: seq<Place>, ls: seq<Lists>)

  ghost predicate Start(m: Memory, h: History) {
    && Init(m)
    && h.place == [] && |h.ls| == |m.ds|
    && (forall d | 0 <= d < |h.ls| :: h.ls[d] == Lists([], [], [], []))
  }

  /** Clients push, release and delete only nodes they hold. */
  predicate Legal(h: History, a: Action) {
    a.Push? || a.Release? || a.Dispose? ==> a.n < |h.place| && h.place[a.n] == Hand
  }

  function Move(h: History, n: nat, x: Place): History {
    if n < |h.place| then h.(place := h.place[n := x]) else h
  }

  function MoveAll(place: seq<Place>, ns: seq<nat>, x: Place): seq<Place> {
    seq(|place|, i requires 0 <= i < |place| => if i in ns then x else place[i])
  }

  function Record(m: Memory, h: History, a: Action): History
    requires Enabled(m, a) && |h.ls| == |m.ds|
  {
    match a
    case Create => h.(place := h.place + [Hand])
    case Push(p, n, d) => Move(h, n, Carried(p))
    case Release(p, n) => Move(h, n, Carried(p))
    case Dispose(n) => Move(h, n, Gone)
    case Fail(p) => h
    case Advance(p) =>
      if m.prod[p].Cas? then
        var d, n := m.prod[p].d, m.prod[p].n;
        Move(h.(ls := h.ls[d := h.ls[d].(head := [n] + h.ls[d].head)]), n, InHead(d))
      else h
    case Consume(d) => RecordConsume(m, h, d)
  }

  function RecordConsume(m: Memory, h: History, d: nat): History
    requires Enabled(m, Consume(d)) && |h.ls| == |m.ds|
  {
    var x, l := m.ds[d], h.ls[d];
    match x.con
    case Ready =>
      if x.cache == Null || l.cache == [] then h
      else Move(h.(ls := h.ls[d := l.(cache := l.cache[1..])]), x.cache.n, Hand)
    case Exchange =>
      if x.head.At? then
        h.(ls := h.ls[d := l.(head := [], last := l.head)], place := MoveAll(h.place, l.head, InTaken(d)))
      else if x.kind == Queue then h
      else h.(place := h.place + [Hand])
    case Inspect(e) =>
      if m.next[e] == Null then Move(h.(ls := h.ls[d := l.(last := [])]), e, Hand)
      else if x.kind == Queue || l.last == [] then h
      else
        Move(h.(ls := h.ls[d := l.(last := [], cache := l.last[1..])],
                place := MoveAll(h.place, l.last[1..], InCache(d))), e, Hand)
    case Reverse(last, first) =>
      if last.At? then
        if l.last == [] then h
        else h.(ls := h.ls[d := l.(last := l.last[1..], first := [l.last[0]] + l.first)])
      else if l.first == [] then h
      else
        Move(h.(ls := h.ls[d := l.(first := [], cache := l.first[1..])],
                place := MoveAll(h.place, l.first[1..], InCache(d))), first.n, Hand)
  }

  // ------------------------------------------------------------- the invariant

  /** Links from x run through exactly the nodes ns, in order, to Null. */
  predicate Chain(next: seq<Ptr>, x: Ptr, ns: seq<nat>) {
    && x == Nth(ns, 0)
    && (forall i | 0 <= i < |ns| :: Linked(next, ns, i))
  }

  function Nth(ns: seq<nat>, i: nat): Ptr { if i < |ns| then At(ns[i]) else Null }

  predicate Linked(next: seq<Ptr>, ns: seq<nat>, i: nat)
    requires i < |ns|
  {
    ns[i] < |next| && next[ns[i]] == Nth(ns, i + 1)
  }

  predicate Distinct(ns: seq<nat>) { forall i, j | 0 <= i < j < |ns| :: ns[i] != ns[j] }

  /** The nodes ns are without repetition, and are just those in place x. */
  predicate Holds(place: seq<Place>, ns: seq<nat>, x: Place) {
    && Distinct(ns)
    && (forall n | n in ns :: n < |place| && place[n] == x)
    && (forall n | 0 <= n < |place| && place[n] == x :: n in ns)
  }

  ghost predicate StructInv(m: Memory, h: History, d: nat)
    requires d < |m.ds| && |h.ls| == |m.ds|
  {
    var x, l := m.ds[d], h.ls[d];
    && Chain(m.next, x.head, l.head)
    && Chain(m.next, x.cache, l.cache)
    && Holds(h.place, l.head, InHead(d))
    && Holds(h.place, l.cache, InCache(d))
    && Holds(h.place, l.last + l.first, InTaken(d))
    && (!x.con.Ready? ==> l.cache == [])
    && match x.con
       case Inspect(e) => l.first == [] && l.last != [] && Chain(m.next, At(e), l.last)
       case Reverse(last, first) => x.kind == Queue && l.last + l.first != [] && Chain(m.next, last, l.last) && Chain(m.next, first, l.first)
       case _ => l.last == l.first == []
  }

  ghost predicate ProducerInv(m: Memory, h: History, p: nat)
    requires p < |m.prod| && |m.next| == |h.place|
  {
    var x := m.prod[p];
    && (!x.Idle? ==> x.d < |m.ds| && x.n < |h.place| && h.place[x.n] == Carried(p) && PtrOk(m, At(x.n)))
    && (x.Cas? ==> m.next[x.n] == x.stale)
  }

  ghost predicate PlaceInv(m: Memory, h: History, n: nat)
    requires n < |h.place|
  {
    match h.place[n]
    case Carried(p) => p < |m.prod| && !m.prod[p].Idle? && m.prod[p].n == n
    case InHead(d) => d < |m.ds|
    case InCache(d) => d < |m.ds|
    case InTaken(d) => d < |m.ds|
    case _ => true
  }

  ghost predicate Inv(m: Memory, h: History) {
    && |h.ls| == |m.ds| && |h.place| == |m.next| == |m.freer|
    && (forall d | 0 <= d < |m.ds| :: StructInv(m, h, d))
    && (forall p | 0 <= p < |m.prod| :: ProducerInv(m, h, p))
    && (forall n | 0 <= n < |h.place| :: PlaceInv(m, h, n))
    && (forall n | 0 <= n < |m.freer| && m.freer[n].At? :: m.freer[n].n < |m.ds|)
  }

  // ------------------------------------------------------- chains and places

  /** A link outside a chain may change. */
  lemma ChainFrame(next: seq<Ptr>, x: Ptr, ns: seq<nat>, n: nat, y: Ptr)
    requires Chain(next, x, ns) && n < |next| && n !in ns
    ensures Chain(next[n := y], x, ns)
  {
    var next' := next[n := y];
    forall i | 0 <= i < |ns| ensures Linked(next', ns, i) {
      assert Linked(next, ns, i);
    }
  }

  /** A chain depends only on the links of its nodes. */
  lemma ChainAgree(next: seq<Ptr>, x: Ptr, ns: seq<nat>, next': seq<Ptr>)
    requires Chain(next, x, ns)
    requires forall n | n in ns :: n < |next| && n < |next'| && next'[n] == next[n]
    ensures Chain(next', x, ns)
  {
    forall i | 0 <= i < |ns| ensures Linked(next', ns, i) {
      assert Linked(next, ns, i) && ns[i] in ns;
    }
  }

  lemma ChainGrow(next: seq<Ptr>, x: Ptr, ns: seq<nat>)
    requires Chain(next, x, ns)
    ensures Chain(next + [Null], x, ns)
  {
    forall i | 0 <= i < |ns| ensures Linked(next + [Null], ns, i) {
      assert Linked(next, ns, i);
    }
  }

  lemma ChainTail(next: seq<Ptr>, x: Ptr, ns: seq<nat>)
    requires Chain(next, x, ns) && ns != []
    ensures ns[0] < |next| && Chain(next, next[ns[0]], ns[1..])
  {
    assert Linked(next, ns, 0);
    forall i | 0 <= i < |ns[1..]| ensures Linked(next, ns[1..], i) {
      assert Linked(next, ns, i + 1);
    }
  }

  lemma ChainPush(next: seq<Ptr>, x: Ptr, ns: seq<nat>, n: nat)
    requires Chain(next, x, ns) && n < |next| && next[n] == x
    ensures Chain(next, At(n), [n] + ns)
  {
    forall i | 0 <= i < |[n] + ns| ensures Linked(next, [n] + ns, i) {
      if i > 0 {
        assert Linked(next, ns, i - 1);
      }
    }
  }

  /** A chain's length tells whether its first node is its last. */
  lemma ChainOne(next: seq<Ptr>, x: Ptr, ns: seq<nat>)
    requires Chain(next, x, ns) && ns != []
    ensures x == At(ns[0]) && ns[0] < |next|
    ensures next[ns[0]] == Null <==> |ns| == 1
  {
    assert Linked(next, ns, 0);
  }

  /** Without its first node a list has the same nodes but that one. */
  lemma TailNodes(ns: seq<nat>)
    requires Distinct(ns) && ns != []
    ensures Distinct(ns[1..]) && ns[0] in ns && ns[0] !in ns[1..]
    ensures forall n :: n in ns <==> n == ns[0] || n in ns[1..]
  {
    assert ns == [ns[0]] + ns[1..];
  }

  lemma HoldsTail(place: seq<Place>, ns: seq<nat>, x: Place, y: Place)
    requires Holds(place, ns, x) && ns != [] && y != x
    ensures ns[0] < |place| && Holds(place[ns[0] := y], ns[1..], x)
  {
    TailNodes(ns);
  }

  /** All nodes of one place are moved to another that was empty. */
  lemma HoldsMoved(place: seq<Place>, ns: seq<nat>, x: Place, y: Place)
    requires Holds(place, ns, x) && Holds(place, [], y)
    ensures x != y ==> Holds(MoveAll(place, ns, y), [], x)
    ensures Holds(MoveAll(place, ns, y), ns, y)
  {
  }

  /** The first node goes to z, the others to the empty place y. */
  lemma HoldsSplit(place: seq<Place>, ns: seq<nat>, x: Place, y: Place, z: Place)
    requires Holds(place, ns, x) && ns != [] && Holds(place, [], y) && x != y && z != x && z != y
    ensures ns[0] < |place|
    ensures var place' := MoveAll(place, ns[1..], y)[ns[0] := z];
            Holds(place', [], x) && Holds(place', ns[1..], y)
  {
    TailNodes(ns);
  }

  /** One turn of the reversal loop moves the first node of a list to the front
      of the other. */
  lemma ShiftNodes(last: seq<nat>, first: seq<nat>)
    requires last != [] && Distinct(last + first)
    ensures last[0] !in last[1..] && last[0] !in first
    ensures Distinct(last[1..] + ([last[0]] + first))
  {
    var xs, ys := last + first, last[1..] + ([last[0]] + first);
    assert forall i | 0 <= i < |ys| :: ys[i] == xs[if i < |last| - 1 then i + 1 else if i == |last| - 1 then 0 else i];
    assert forall i | 0 <= i < |first| :: first[i] == xs[|last| + i];
    assert forall i | 0 <= i < |last| :: last[i] == xs[i];
  }

  lemma HoldsShift(place: seq<Place>, last: seq<nat>, first: seq<nat>, x: Place)
    requires last != [] && Holds(place, last + first, x)
    ensures Holds(place, last[1..] + ([last[0]] + first), x)
  {
    ShiftNodes(last, first);
    assert last == [last[0]] + last[1..];
    assert forall n :: n in last + first <==> n in last[1..] + ([last[0]] + first);
  }

  predicate Inside(x: Place, d: nat) { x == InHead(d) || x == InCache(d) || x == InTaken(d) }

  /** A structure no step touches keeps its invariant. */
  lemma StructFrame(m: Memory, h: History, m': Memory, h': History, d: nat)
    requires d < |m.ds| == |h.ls| && d < |m'.ds| == |h'.ls| && StructInv(m, h, d)
    requires m'.ds[d] == m.ds[d] && h'.ls[d] == h.ls[d]
    requires |m.next| == |h.place| && |m'.next| == |h'.place|
    requires forall n | 0 <= n < |h.place| && Inside(h.place[n], d) ::
               n < |h'.place| && h'.place[n] == h.place[n] && m'.next[n] == m.next[n]
    requires forall n | 0 <= n < |h'.place| && Inside(h'.place[n], d) ::
               n < |h.place| && h.place[n] == h'.place[n]
    ensures StructInv(m', h', d)
  {
    var x, l := m.ds[d], h.ls[d];
    ChainAgree(m.next, x.head, l.head, m'.next);
    ChainAgree(m.next, x.cache, l.cache, m'.next);
    assert forall n | n in l.last || n in l.first :: n in l.last + l.first;
    match x.con {
      case Inspect(e) => ChainAgree(m.next, At(e), l.last, m'.next);
      case Reverse(last, first) =>
        ChainAgree(m.next, last, l.last, m'.next);
        ChainAgree(m.next, first, l.first, m'.next);
      case _ =>
    }
  }

  // ----------------------------------------------------------- the other steps

  /** Structures, producers and places seen from a step that changes the links
      and places of nodes outside structure d only. */
  lemma OutsideKeeps(m: Memory, h: History, a: Action)
    requires Inv(m, h) && Enabled(m, a) && Legal(h, a) && !a.Consume? && !(a.Advance? && m.prod[a.p].Cas?)
    ensures Inv(Next(m, a), Record(m, h, a))
  {
    var m', h' := Next(m, a), Record(m, h, a);
    forall d | 0 <= d < |m.ds| ensures StructInv(m', h', d) { OutsideStruct(m, h, a, d); }
    forall p | 0 <= p < |m'.prod| ensures ProducerInv(m', h', p) { OutsideProducer(m, h, a, p); }
    forall n | 0 <= n < |h'.place| ensures PlaceInv(m', h', n) {
      assert n < |h.place| ==> PlaceInv(m, h, n);
    }
  }

  lemma OutsideStruct(m: Memory, h: History, a: Action, d: nat)
    requires Inv(m, h) && Enabled(m, a) && Legal(h, a) && !a.Consume? && !(a.Advance? && m.prod[a.p].Cas?) && d < |m.ds|
    ensures |Next(m, a).ds| == |m.ds| == |Record(m, h, a).ls| && StructInv(Next(m, a), Record(m, h, a), d)
  {
    if a.Advance? { assert ProducerInv(m, h, a.p); }
    StructFrame(m, h, Next(m, a), Record(m, h, a), d);
  }

  lemma OutsideProducer(m: Memory, h: History, a: Action, p: nat)
    requires Inv(m, h) && Enabled(m, a) && Legal(h, a) && !a.Consume? && !(a.Advance? && m.prod[a.p].Cas?) && p < |m.prod|
    ensures |Next(m, a).prod| == |m.prod| && ProducerInv(Next(m, a), Record(m, h, a), p)
  {
    assert ProducerInv(m, h, p);
    if a.Advance? || a.Fail? { assert ProducerInv(m, h, a.p); }
  }

  /** The structure whose head is exchanged. */
  lemma CasOwn(m: Memory, h: History, p: nat)
    requires Inv(m, h) && Enabled(m, Advance(p)) && m.prod[p].Cas?
    ensures StructInv(Next(m, Advance(p)), Record(m, h, Advance(p)), m.prod[p].d)
  {
    var n, d := m.prod[p].n, m.prod[p].d;
    assert ProducerInv(m, h, p) && StructInv(m, h, d);
    var l, place' := h.ls[d], h.place[n := InHead(d)];
    ChainPush(m.next, m.ds[d].head, l.head, n);
    HoldsPush(h.place, l.head, InHead(d), n);
    HoldsOther(h.place, l.cache, InCache(d), n, InHead(d));
    HoldsOther(h.place, l.last + l.first, InTaken(d), n, InHead(d));
  }

  /** A node from elsewhere joins those of a place. */
  lemma HoldsPush(place: seq<Place>, ns: seq<nat>, x: Place, n: nat)
    requires Holds(place, ns, x) && n < |place| && place[n] != x
    ensures Holds(place[n := x], [n] + ns, x)
  {
    assert forall i | 0 < i < |ns| + 1 :: ([n] + ns)[i] == ns[i - 1] && ns[i - 1] in ns;
    assert forall i | i in [n] + ns :: i == n || i in ns;
    forall i | 0 <= i < |place| && place[n := x][i] == x ensures i in [n] + ns { assert i == n || i in ns; }
  }

  /** The nodes of another place are as before. */
  lemma HoldsOther(place: seq<Place>, ns: seq<nat>, x: Place, n: nat, y: Place)
    requires Holds(place, ns, x) && n < |place| && place[n] != x && y != x
    ensures Holds(place[n := y], ns, x)
  {
  }

  /** A successful compare-exchange: the node becomes the head of the list that
      its link was set to, whatever happened to that list in between. */
  lemma CasKeeps(m: Memory, h: History, p: nat)
    requires Inv(m, h) && Enabled(m, Advance(p)) && m.prod[p].Cas?
    ensures Inv(Next(m, Advance(p)), Record(m, h, Advance(p)))
  {
    var m', h' := Next(m, Advance(p)), Record(m, h, Advance(p));
    assert ProducerInv(m, h, p);
    forall d | 0 <= d < |m.ds| ensures StructInv(m', h', d) {
      if d == m.prod[p].d { CasOwn(m, h, p); } else { StructFrame(m, h, m', h', d); }
    }
    forall q | 0 <= q < |m'.prod| ensures ProducerInv(m', h', q) {
      assert ProducerInv(m, h, q);
    }
    forall i | 0 <= i < |h'.place| ensures PlaceInv(m', h', i) {
      assert PlaceInv(m, h, i);
    }
  }

  // ----------------------------------------------------- the consumer's steps

  /** The structure whose consumer steps. */
  lemma ConsumeStruct(m: Memory, h: History, d: nat)
    requires Inv(m, h) && Enabled(m, Consume(d))
    ensures |Record(m, h, Consume(d)).ls| == |m.ds| && StructInv(Next(m, Consume(d)), Record(m, h, Consume(d)), d)
  {
    var m', h' := Next(m, Consume(d)), Record(m, h, Consume(d));
    var x, l := m.ds[d], h.ls[d];
    assert StructInv(m, h, d);
    match x.con {
      case Ready => if x.cache.At? { ConsumeCache(m, h, d); }
      case Exchange =>
        if x.head.At? {
          HoldsMoved(h.place, l.head, InHead(d), InTaken(d));
          assert l.head + [] == l.head;
        } else if x.kind == Pool {
          ConsumeGrow(m, h, d);
        }
      case Inspect(e) => ConsumeInspect(m, h, d);
      case Reverse(last, first) => ConsumeReverse(m, h, d);
    }
  }

  /** An empty pool makes a node. */
  lemma ConsumeGrow(m: Memory, h: History, d: nat)
    requires Inv(m, h) && Enabled(m, Consume(d)) && m.ds[d].con.Exchange? && m.ds[d].head == Null && m.ds[d].kind == Pool
    ensures StructInv(Next(m, Consume(d)), Record(m, h, Consume(d)), d)
  {
    assert StructInv(m, h, d);
    ChainGrow(m.next, m.ds[d].head, h.ls[d].head);
    ChainGrow(m.next, m.ds[d].cache, h.ls[d].cache);
  }

  lemma ConsumeCache(m: Memory, h: History, d: nat)
    requires Inv(m, h) && Enabled(m, Consume(d)) && m.ds[d].con.Ready? && m.ds[d].cache.At?
    ensures StructInv(Next(m, Consume(d)), Record(m, h, Consume(d)), d)
  {
    var x, l := m.ds[d], h.ls[d];
    var n := x.cache.n;
    assert StructInv(m, h, d);
    TailNodes(l.cache);
    HoldsTail(h.place, l.cache, InCache(d), Hand);
    ChainTail(m.next, x.cache, l.cache);
    ChainFrame(m.next, m.next[n], l.cache[1..], n, Null);
    assert n !in l.head;
    ChainFrame(m.next, x.head, l.head, n, Null);
    assert m.next[n := Null][n := Null] == m.next[n := Null];
  }

  lemma ConsumeInspect(m: Memory, h: History, d: nat)
    requires Inv(m, h) && Enabled(m, Consume(d)) && m.ds[d].con.Inspect?
    ensures StructInv(Next(m, Consume(d)), Record(m, h, Consume(d)), d)
  {
    var x, l := m.ds[d], h.ls[d];
    var e := x.con.e;
    assert StructInv(m, h, d);
    assert l.last + [] == l.last && e in l.last && e !in l.head;
    ChainOne(m.next, At(e), l.last);
    TailNodes(l.last);
    if m.next[e] == Null {
      HoldsTail(h.place, l.last, InTaken(d), Hand);
    } else if x.kind == Pool {
      HoldsSplit(h.place, l.last, InTaken(d), InCache(d), Hand);
      ChainTail(m.next, At(e), l.last);
      ChainFrame(m.next, m.next[e], l.last[1..], e, Null);
    }
    ChainFrame(m.next, x.head, l.head, e, Null);
  }

  lemma ReverseOne(m: Memory, h: History, d: nat)
    requires Inv(m, h) && Enabled(m, Consume(d)) && m.ds[d].con.Reverse? && m.ds[d].con.last.At?
    ensures StructInv(Next(m, Consume(d)), Record(m, h, Consume(d)), d)
  {
    var x, l := m.ds[d], h.ls[d];
    var last, first := x.con.last, x.con.first;
    assert StructInv(m, h, d);
    var n := last.n;
    assert n in l.last + l.first && n !in l.head;
    HoldsShift(h.place, l.last, l.first, InTaken(d));
    ShiftNodes(l.last, l.first);
    ChainTail(m.next, last, l.last);
    ChainFrame(m.next, m.next[n], l.last[1..], n, first);
    ChainFrame(m.next, first, l.first, n, first);
    ChainPush(m.next[n := first], first, l.first, n);
    ChainFrame(m.next, x.head, l.head, n, first);
  }

  lemma ReverseEnd(m: Memory, h: History, d: nat)
    requires Inv(m, h) && Enabled(m, Consume(d)) && m.ds[d].con.Reverse? && m.ds[d].con.last == Null
    ensures StructInv(Next(m, Consume(d)), Record(m, h, Consume(d)), d)
  {
    var x, l := m.ds[d], h.ls[d];
    var first := x.con.first;
    assert StructInv(m, h, d);
    var n := first.n;
    assert l.last == [] && l.last + l.first == l.first;
    TailNodes(l.first);
    HoldsSplit(h.place, l.first, InTaken(d), InCache(d), Hand);
    ChainTail(m.next, first, l.first);
    ChainFrame(m.next, m.next[n], l.first[1..], n, Null);
    assert n !in l.head;
    ChainFrame(m.next, x.head, l.head, n, Null);
    assert m.next[n := Null][n := Null] == m.next[n := Null];
  }

  lemma ConsumeReverse(m: Memory, h: History, d: nat)
    requires Inv(m, h) && Enabled(m, Consume(d)) && m.ds[d].con.Reverse?
    ensures StructInv(Next(m, Consume(d)), Record(m, h, Consume(d)), d)
  {
    if m.ds[d].con.last.At? { ReverseOne(m, h, d); } else { ReverseEnd(m, h, d); }
  }

  /** A consumer's step moves only nodes of its own structure, keeps them there
      or hands them out, and may add a new node; it changes only their links. */
  ghost predicate OnlyOwn(m: Memory, h: History, m': Memory, h': History, d: nat)
    requires |h.ls| == |m.ds| && |h.place| == |m.next|
  {
    && |h'.place| == |m'.next| == |m'.freer| && |h'.place| >= |h.place|
    && m'.prod == m.prod && |m'.ds| == |m.ds| == |h'.ls|
    && (forall n | 0 <= n < |h.place| && !Inside(h.place[n], d) :: h'.place[n] == h.place[n] && m'.next[n] == m.next[n])
    && (forall n | 0 <= n < |h.place| && Inside(h.place[n], d) :: Inside(h'.place[n], d) || h'.place[n] == Hand)
    && (forall n | |h.place| <= n < |h'.place| :: h'.place[n] == Hand)
    && (forall n | 0 <= n < |m'.freer| && m'.freer[n].At? :: m'.freer[n].n < |m.ds|)
    && (forall e | 0 <= e < |m.ds| && e != d :: m'.ds[e] == m.ds[e] && h'.ls[e] == h.ls[e])
  }

  lemma ReadyOwn(m: Memory, h: History, d: nat)
    requires Inv(m, h) && Enabled(m, Consume(d)) && (m.ds[d].con.Ready? || m.ds[d].con.Exchange?)
    ensures OnlyOwn(m, h, Next(m, Consume(d)), Record(m, h, Consume(d)), d)
  {
    assert StructInv(m, h, d);
    var l := h.ls[d];
    if l.cache != [] { TailSubset(l.cache); }
  }

  lemma InspectOwn(m: Memory, h: History, d: nat)
    requires Inv(m, h) && Enabled(m, Consume(d)) && m.ds[d].con.Inspect?
    ensures OnlyOwn(m, h, Next(m, Consume(d)), Record(m, h, Consume(d)), d)
  {
    assert StructInv(m, h, d);
    var l := h.ls[d];
    assert l.last + [] == l.last;
    TailSubset(l.last);
  }

  lemma ReverseOwn(m: Memory, h: History, d: nat)
    requires Inv(m, h) && Enabled(m, Consume(d)) && m.ds[d].con.Reverse?
    ensures OnlyOwn(m, h, Next(m, Consume(d)), Record(m, h, Consume(d)), d)
  {
    assert StructInv(m, h, d);
    var l := h.ls[d];
    assert forall n | n in l.last || n in l.first :: n in l.last + l.first;
    if l.last != [] { TailSubset(l.last); }
    if l.first != [] { TailSubset(l.first); }
  }

  lemma ConsumeFrame(m: Memory, h: History, d: nat)
    requires Inv(m, h) && Enabled(m, Consume(d))
    ensures OnlyOwn(m, h, Next(m, Consume(d)), Record(m, h, Consume(d)), d)
  {
    match m.ds[d].con {
      case Inspect(_) => InspectOwn(m, h, d);
      case Reverse(_, _) => ReverseOwn(m, h, d);
      case _ => ReadyOwn(m, h, d);
    }
  }

  lemma TailSubset(ns: seq<nat>)
    requires ns != []
    ensures ns[0] in ns && forall n | n in ns[1..] :: n in ns
  {
  }

  lemma ConsumeKeeps(m: Memory, h: History, d: nat)
    requires Inv(m, h) && Enabled(m, Consume(d))
    ensures Inv(Next(m, Consume(d)), Record(m, h, Consume(d)))
  {
    var m', h' := Next(m, Consume(d)), Record(m, h, Consume(d));
    ConsumeFrame(m, h, d);
    ConsumeStruct(m, h, d);
    forall e | 0 <= e < |m.ds| && e != d ensures StructInv(m', h', e) {
      StructFrame(m, h, m', h', e);
    }
    forall p | 0 <= p < |m'.prod| ensures ProducerInv(m', h', p) {
      assert ProducerInv(m, h, p);
    }
    forall n | 0 <= n < |h'.place| ensures PlaceInv(m', h', n) {
      assert n < |h.place| ==> PlaceInv(m, h, n);
    }
  }

  // -------------------------------------------------------- first in, first out

  function Rev(ns: seq<nat>): seq<nat> { if ns == [] then [] else Rev(ns[1..]) + [ns[0]] }

  /** The queue that structure d stands for, oldest node first. */
  function Fifo(l: Lists): seq<nat> { l.cache + (Rev(l.last) + l.first) + Rev(l.head) }

  /** A step appends the node it pushes, removes the oldest node when it pops
      one, finds the queue empty when it returns nothing, and otherwise leaves
      every queue as it is. */
  ghost predicate FifoStep(m: Memory, h: History, h': History, ev: Event, d: nat)
    requires d < |m.ds| == |h.ls| == |h'.ls|
  {
    match ev
    case Pushed(e, n) => Fifo(h'.ls[d]) == Fifo(h.ls[d]) + (if e == d then [n] else [])
    case Popped(e, n) => Fifo(h.ls[d]) == (if e == d then [n] else []) + Fifo(h'.ls[d])
    case Empty(e) => Fifo(h'.ls[d]) == Fifo(h.ls[d]) && (e == d ==> Fifo(h.ls[d]) == [])
    case Silent => Fifo(h'.ls[d]) == Fifo(h.ls[d])
  }

  lemma ConsumeIsFifo(m: Memory, h: History, d: nat)
    requires Inv(m, h) && Enabled(m, Consume(d)) && m.ds[d].kind == Queue
    ensures |Record(m, h, Consume(d)).ls| == |m.ds|
    ensures FifoStep(m, h, Record(m, h, Consume(d)), Observe(m, Consume(d)), d)
  {
    match m.ds[d].con {
      case Inspect(e) => InspectIsFifo(m, h, d);
      case Reverse(last, first) => ReverseIsFifo(m, h, d);
      case _ => ReadyIsFifo(m, h, d);
    }
  }

  lemma ReadyIsFifo(m: Memory, h: History, d: nat)
    requires Inv(m, h) && Enabled(m, Consume(d)) && (m.ds[d].con.Ready? || m.ds[d].con.Exchange?)
    requires m.ds[d].kind == Queue
    ensures |Record(m, h, Consume(d)).ls| == |m.ds|
    ensures FifoStep(m, h, Record(m, h, Consume(d)), Observe(m, Consume(d)), d)
  {
    var x, l := m.ds[d], h.ls[d];
    assert StructInv(m, h, d);
    if x.con.Ready? && x.cache.At? {
      assert l.cache == [x.cache.n] + l.cache[1..];
    } else if x.con.Exchange? {
      assert l.cache + (Rev(l.head) + []) + Rev([]) == l.cache + (Rev([]) + []) + Rev(l.head);
    }
  }

  lemma InspectIsFifo(m: Memory, h: History, d: nat)
    requires Inv(m, h) && Enabled(m, Consume(d)) && m.ds[d].con.Inspect? && m.ds[d].kind == Queue
    ensures |Record(m, h, Consume(d)).ls| == |m.ds|
    ensures FifoStep(m, h, Record(m, h, Consume(d)), Observe(m, Consume(d)), d)
  {
    var e, l := m.ds[d].con.e, h.ls[d];
    assert StructInv(m, h, d);
    ChainOne(m.next, At(e), l.last);
    if m.next[e] == Null {
      assert l.last == [e] && l.first == [] && l.cache == [] && Rev([e]) == [e];
      assert [] + ([e] + []) + Rev(l.head) == [e] + ([] + ([] + []) + Rev(l.head));
    }
  }

  lemma ReverseIsFifo(m: Memory, h: History, d: nat)
    requires Inv(m, h) && Enabled(m, Consume(d)) && m.ds[d].con.Reverse? && m.ds[d].kind == Queue
    ensures |Record(m, h, Consume(d)).ls| == |m.ds|
    ensures FifoStep(m, h, Record(m, h, Consume(d)), Observe(m, Consume(d)), d)
  {
    var x, l := m.ds[d], h.ls[d];
    assert StructInv(m, h, d);
    if x.con.last.At? {
      assert Rev(l.last) + l.first == Rev(l.last[1..]) + ([l.last[0]] + l.first);
    } else {
      var n := x.con.first.n;
      assert l.last == [] && l.cache == [] && l.first == [n] + l.first[1..];
      assert [] + ([] + l.first) + Rev(l.head) == [n] + (l.first[1..] + ([] + []) + Rev(l.head));
    }
  }

  lemma StepIsFifo(m: Memory, h: History, a: Action, d: nat)
    requires Inv(m, h) && Enabled(m, a) && Legal(h, a) && d < |m.ds| && m.ds[d].kind == Queue
    ensures |Record(m, h, a).ls| == |m.ds|
    ensures FifoStep(m, h, Record(m, h, a), Observe(m, a), d)
  {
    var l := h.ls[d];
    if a.Consume? {
      if a.d == d { ConsumeIsFifo(m, h, d); } else { ConsumeFrame(m, h, a.d); }
    } else if a.Advance? && m.prod[a.p].Cas? {
      var n := m.prod[a.p].n;
      assert ProducerInv(m, h, a.p);
      if m.prod[a.p].d == d { assert ([n] + l.head)[1..] == l.head; }
    }
  }

  // ------------------------------------------------------------------ all runs

  /** A run: a memory and its history, joined by enabled and legal actions. */
  ghost predicate IsRun(ms: seq<Memory>, hs: seq<History>, acts: seq<Action>) {
    && |ms| == |hs| == |acts| + 1
    && Start(ms[0], hs[0])
    && forall i | 0 <= i < |acts| :: Stepped(ms, hs, acts, i)
  }

  ghost predicate Stepped(ms: seq<Memory>, hs: seq<History>, acts: seq<Action>, i: nat)
    requires |ms| == |hs| == |acts| + 1 && i < |acts|
  {
    && Enabled(ms[i], acts[i]) && Legal(hs[i], acts[i]) && |hs[i].ls| == |ms[i].ds|
    && ms[i + 1] == Next(ms[i], acts[i]) && hs[i + 1] == Record(ms[i], hs[i], acts[i])
  }

  lemma StartInv(m: Memory, h: History)
    requires Start(m, h)
    ensures Inv(m, h)
  {
  }

  lemma {:induction false} RunInv(ms: seq<Memory>, hs: seq<History>, acts: seq<Action>, i: nat)
    requires IsRun(ms, hs, acts) && i < |ms|
    ensures Inv(ms[i], hs[i])
    ensures |ms[i].ds| == |ms[0].ds| && forall d | 0 <= d < |ms[i].ds| :: ms[i].ds[d].kind == ms[0].ds[d].kind
  {
    if i == 0 {
      StartInv(ms[0], hs[0]);
    } else {
      RunInv(ms, hs, acts, i - 1);
      assert Stepped(ms, hs, acts, i - 1);
      var m, h, a := ms[i - 1], hs[i - 1], acts[i - 1];
      if a.Consume? { ConsumeKeeps(m, h, a.d); }
      else if a.Advance? && m.prod[a.p].Cas? { CasKeeps(m, h, a.p); }
      else { OutsideKeeps(m, h, a); }
    }
  }

  /** The nodes pushed on queue d, or popped from it, in the first i steps. */
  ghost function Log(ms: seq<Memory>, acts: seq<Action>, i: nat, d: nat, pushes: bool): seq<nat>
    requires i <= |acts| < |ms| && forall j | 0 <= j < i :: Enabled(ms[j], acts[j])
  {
    if i == 0 then [] else
      var ev := Observe(ms[i - 1], acts[i - 1]);
      Log(ms, acts, i - 1, d, pushes) + Moved(ev, d, pushes)
  }

  lemma RunEnabled(ms: seq<Memory>, hs: seq<History>, acts: seq<Action>)
    requires IsRun(ms, hs, acts)
    ensures forall j | 0 <= j < |acts| :: Enabled(ms[j], acts[j])
  {
    forall j | 0 <= j < |acts| ensures Enabled(ms[j], acts[j]) { assert Stepped(ms, hs, acts, j); }
  }

  // ------------------------------------------------------------- main results

  /** The nodes a step pushes on queue d, or pops from it. */
  function Moved(ev: Event, d: nat, pushes: bool): seq<nat> {
    if ((pushes && ev.Pushed?) || (!pushes && ev.Popped?)) && ev.d == d then [ev.n] else []
  }

  lemma LogStep(log: seq<nat>, out: seq<nat>, was: seq<nat>, now: seq<nat>, ins: seq<nat>, del: seq<nat>)
    requires log == out + was && was + ins == del + now
    ensures log + ins == (out + del) + now
  {
    assert (out + was) + ins == out + (was + ins);
    assert out + (del + now) == (out + del) + now;
  }

  lemma StepMoves(m: Memory, h: History, a: Action, d: nat)
    requires Inv(m, h) && Enabled(m, a) && Legal(h, a) && d < |m.ds| && m.ds[d].kind == Queue
    ensures |Record(m, h, a).ls| == |m.ds|
    ensures Fifo(h.ls[d]) + Moved(Observe(m, a), d, true)
         == Moved(Observe(m, a), d, false) + Fifo(Record(m, h, a).ls[d])
    ensures Observe(m, a) == Empty(d) ==> Fifo(h.ls[d]) == []
  {
    StepIsFifo(m, h, a, d);
  }

  lemma {:induction false} FifoSoFar(ms: seq<Memory>, hs: seq<History>, acts: seq<Action>, i: nat, d: nat)
    requires IsRun(ms, hs, acts) && i <= |acts| && d < |ms[0].ds| && ms[0].ds[d].kind == Queue
    requires forall j | 0 <= j < |acts| :: Enabled(ms[j], acts[j])
    ensures d < |hs[i].ls|
    ensures Log(ms, acts, i, d, true) == Log(ms, acts, i, d, false) + Fifo(hs[i].ls[d])
  {
    if i == 0 {
      assert hs[0].ls[d] == Lists([], [], [], []);
    } else {
      FifoSoFar(ms, hs, acts, i - 1, d);
      OneStepFifo(ms, hs, acts, i - 1, d);
    }
  }

  /** First in, first out. After any number of steps of any run, the nodes pushed
      on a queue, in the order of their successful compare-exchanges, are the
      nodes popped from it, in order, followed by those it still holds; and
      where its consumer is told that it is empty, all have been popped. */
  lemma LockFreeFifo(ms: seq<Memory>, hs: seq<History>, acts: seq<Action>, i: nat, d: nat)
    requires IsRun(ms, hs, acts) && i <= |acts| && d < |ms[0].ds| && ms[0].ds[d].kind == Queue
    ensures forall j | 0 <= j < |acts| :: Enabled(ms[j], acts[j])
    ensures d < |hs[i].ls|
    ensures Log(ms, acts, i, d, true) == Log(ms, acts, i, d, false) + Fifo(hs[i].ls[d])
    ensures i < |acts| && Observe(ms[i], acts[i]) == Empty(d) ==> Log(ms, acts, i, d, true) == Log(ms, acts, i, d, false)
  {
    RunEnabled(ms, hs, acts);
    FifoSoFar(ms, hs, acts, i, d);
    if i < |acts| && Observe(ms[i], acts[i]) == Empty(d) {
      EmptyMeansEmpty(ms, hs, acts, i, d);
    }
  }

  /** A consumer is told that a queue is empty only when it is. */
  lemma EmptyMeansEmpty(ms: seq<Memory>, hs: seq<History>, acts: seq<Action>, i: nat, d: nat)
    requires IsRun(ms, hs, acts) && i < |acts| && d < |ms[0].ds| && ms[0].ds[d].kind == Queue
    requires Enabled(ms[i], acts[i]) && Observe(ms[i], acts[i]) == Empty(d)
    ensures d < |hs[i].ls| && Fifo(hs[i].ls[d]) == []
  {
    RunInv(ms, hs, acts, i);
    assert Stepped(ms, hs, acts, i);
    StepMoves(ms[i], hs[i], acts[i], d);
  }

  lemma OneStepFifo(ms: seq<Memory>, hs: seq<History>, acts: seq<Action>, i: nat, d: nat)
    requires IsRun(ms, hs, acts) && i < |acts| && d < |ms[0].ds| && ms[0].ds[d].kind == Queue
    requires forall j | 0 <= j < |acts| :: Enabled(ms[j], acts[j])
    requires d < |hs[i].ls| && Log(ms, acts, i, d, true) == Log(ms, acts, i, d, false) + Fifo(hs[i].ls[d])
    ensures d < |hs[i + 1].ls|
    ensures Log(ms, acts, i + 1, d, true) == Log(ms, acts, i + 1, d, false) + Fifo(hs[i + 1].ls[d])
  {
    RunInv(ms, hs, acts, i);
    assert Stepped(ms, hs, acts, i);
    var ev := Observe(ms[i], acts[i]);
    StepMoves(ms[i], hs[i], acts[i], d);
    LogStep(Log(ms, acts, i, d, true), Log(ms, acts, i, d, false), Fifo(hs[i].ls[d]), Fifo(hs[i + 1].ls[d]),
            Moved(ev, d, true), Moved(ev, d, false));
  }

  /** Links from x end in Null after fuel steps, visiting only nodes in place y. */
  predicate Ends(next: seq<Ptr>, place: seq<Place>, x: Ptr, y: Place, fuel: nat)
    decreases fuel
  {
    x == Null || (fuel > 0 && x.n < |next| && x.n < |place| && place[x.n] == y && Ends(next, place, next[x.n], y, fuel - 1))
  }

  lemma {:induction false} ChainEnds(next: seq<Ptr>, place: seq<Place>, x: Ptr, ns: seq<nat>, y: Place)
    requires Chain(next, x, ns) && forall n | n in ns :: n < |place| && place[n] == y
    ensures Ends(next, place, x, y, |ns|)
    decreases |ns|
  {
    if ns != [] {
      ChainTail(next, x, ns);
      TailSubset(ns);
      ChainEnds(next, place, next[ns[0]], ns[1..], y);
    }
  }

  /** What a consumer has taken ends, reversed already or not. */
  predicate TakenEnds(m: Memory, h: History, d: nat)
    requires d < |m.ds| && |h.ls| == |m.ds|
  {
    match m.ds[d].con
    case Inspect(e) => Ends(m.next, h.place, At(e), InTaken(d), |h.ls[d].last|)
    case Reverse(last, first) =>
      && Ends(m.next, h.place, last, InTaken(d), |h.ls[d].last|)
      && Ends(m.next, h.place, first, InTaken(d), |h.ls[d].first|)
    case _ => h.ls[d].last == h.ls[d].first == []
  }

  lemma TakenChains(m: Memory, h: History, d: nat)
    requires d < |m.ds| && |h.ls| == |m.ds| && StructInv(m, h, d)
    ensures TakenEnds(m, h, d)
  {
    var l := h.ls[d];
    assert forall n | n in l.last || n in l.first :: n in l.last + l.first;
    match m.ds[d].con {
      case Inspect(e) => ChainEnds(m.next, h.place, At(e), l.last, InTaken(d));
      case Reverse(last, first) =>
        ChainEnds(m.next, h.place, last, l.last, InTaken(d));
        ChainEnds(m.next, h.place, first, l.first, InTaken(d));
      case _ =>
    }
  }

  /** Node conservation. In every reachable memory each node has the one place the
      history names: the lists of a structure are without repetition just the
      nodes placed there, following links from its head, its cache or the list its
      consumer has taken ends in Null among those nodes, and a producer carries
      just the node it pushes. */
  lemma NodeConservation(ms: seq<Memory>, hs: seq<History>, acts: seq<Action>, i: nat, d: nat, n: nat)
    requires IsRun(ms, hs, acts) && i < |ms| && d < |ms[i].ds| && n < |ms[i].next|
    ensures var m, h := ms[i], hs[i];
            && |h.place| == |m.next| && |h.ls| == |m.ds|
            && Holds(h.place, h.ls[d].head, InHead(d)) && Ends(m.next, h.place, m.ds[d].head, InHead(d), |h.ls[d].head|)
            && Holds(h.place, h.ls[d].cache, InCache(d)) && Ends(m.next, h.place, m.ds[d].cache, InCache(d), |h.ls[d].cache|)
            && Holds(h.place, h.ls[d].last + h.ls[d].first, InTaken(d)) && TakenEnds(m, h, d)
            && (h.place[n].InHead? || h.place[n].InCache? || h.place[n].InTaken? ==> h.place[n].d < |m.ds|)
            && (forall p | 0 <= p < |m.prod| :: h.place[n] == Carried(p) <==> !m.prod[p].Idle? && m.prod[p].n == n)
  {
    RunInv(ms, hs, acts, i);
    var m, h := ms[i], hs[i];
    assert StructInv(m, h, d) && PlaceInv(m, h, n);
    ChainEnds(m.next, h.place, m.ds[d].head, h.ls[d].head, InHead(d));
    ChainEnds(m.next, h.place, m.ds[d].cache, h.ls[d].cache, InCache(d));
    TakenChains(m, h, d);
    forall p | 0 <= p < |m.prod|
      ensures h.place[n] == Carried(p) <==> !m.prod[p].Idle? && m.prod[p].n == n
    {
      assert ProducerInv(m, h, p);
    }
  }

  /** No consumer ever follows a bad pointer: its next step is always defined;
      and a producer that is not in a compare-exchange can always go on. */
  lemma NeverStuck(ms: seq<Memory>, hs: seq<History>, acts: seq<Action>, i: nat)
    requires IsRun(ms, hs, acts) && i < |ms|
    ensures forall d | 0 <= d < |ms[i].ds| :: Enabled(ms[i], Consume(d))
    ensures forall p | 0 <= p < |ms[i].prod| && !ms[i].prod[p].Idle? ::
              Enabled(ms[i], Advance(p)) || Enabled(ms[i], Fail(p))
  {
    RunInv(ms, hs, acts, i);
    var m, h := ms[i], hs[i];
    forall d | 0 <= d < |m.ds| ensures Enabled(m, Consume(d)) {
      assert StructInv(m, h, d);
      var l := h.ls[d];
      assert l.head != [] ==> Linked(m.next, l.head, 0);
      assert l.cache != [] ==> Linked(m.next, l.cache, 0);
      assert l.last != [] && !m.ds[d].con.Ready? && !m.ds[d].con.Exchange? ==> Linked(m.next, l.last, 0);
      assert l.first != [] && m.ds[d].con.Reverse? ==> Linked(m.next, l.first, 0);
    }
    forall p | 0 <= p < |m.prod| && !m.prod[p].Idle? ensures Enabled(m, Advance(p)) || Enabled(m, Fail(p)) {
      assert ProducerInv(m, h, p);
    }
  }
}
