/** Messages: values put into a copy-on-write buffer by the writers of the wire
    format and got from it, or from a copy of it, by the readers. */
module Messages {
  import opened Bytes
  import opened Varint
  import opened Records
  import opened WireStream
  import opened CowBuffers

  datatype Item = Int(ty: Ty, v: int) | Str(s: seq<byte>) | Id(a: ActorId) | Exit(x: ActorExit)

  datatype Kind = IntKind(ty: Ty) | StrKind | IdKind | ExitKind

  function KindOf(item: Item): Kind {
    match item
    case Int(ty, _) => IntKind(ty)
    case Str(_) => StrKind
    case Id(_) => IdKind
    case Exit(_) => ExitKind
  }

  predicate KindOk(k: Kind) { k.IntKind? ==> k.ty.Valid() }

  predicate ItemOk(item: Item) {
    match item
    case Int(ty, v) => ty.Valid() && ty.Fits(v)
    case Str(s) => |s| + 5 <= MAX_I32
    case Id(a) => Fits64(Ints(a))
    case Exit(x) => ExitOk(x)
  }

  function SizeOfItem(item: Item): nat
    requires ItemOk(item)
  {
    match item
    case Int(ty, v) => SizeOf(ty, v)
    case Str(s) => SizeOfStr(s)
    case Id(a) => SizeOfId(a)
    case Exit(x) => SizeOfExit(x)
  }

  function EncodeItem(item: Item): seq<byte>
    requires ItemOk(item)
  {
    match item
    case Int(ty, v) => Encode(ty, v)
    case Str(s) => EncodeStr(s)
    case Id(a) => EncodeId(a)
    case Exit(x) => EncodeExit(x)
  }

  function Tagged<T, U>(r: Result<T>, f: T -> U): Result<U> {
    match r
    case Err(e) => Err(e)
    case Ok(v, n) => Ok(f(v), n)
  }

  /** Reading into a value just made. */
  function DecodeItem(k: Kind, bs: seq<byte>): Result<Item>
    requires KindOk(k)
  {
    match k
    case IntKind(ty) => Tagged(Decode(ty, bs), v => Int(ty, v))
    case StrKind => Tagged(DecodeStr(bs), s => Str(s))
    case IdKind => Tagged(DecodeId(bs, ActorId(0, 0, 0, 0)), a => Id(a))
    case ExitKind => Tagged(DecodeExit(bs, ActorExit(0, [])), x => Exit(x))
  }

  /** The items a put and a get give back. */
  predicate Survives(item: Item) {
    match item
    case Int(ty, v) => Faithful(ty, v)
    case Id(a) => Kept(Ints(a))
    case _ => true
  }

  /** The size reserved covers what is written. */
  lemma SizeCovers(item: Item)
    requires ItemOk(item)
    ensures 0 < |EncodeItem(item)| <= SizeOfItem(item)
  {
    PowValues();
    match item
    case Int(ty, v) => SizeCoversLength(ty, v);
    case Str(s) => StrRoundTrip(s, []);
    case Id(a) => IdLength(a);
    case Exit(x) => ExitLength(x);
  }

  lemma ItemRoundTrip(item: Item, rest: seq<byte>)
    requires ItemOk(item)
    ensures DecodeItem(KindOf(item), EncodeItem(item) + rest) == Ok(item, |EncodeItem(item)|) <==> Survives(item)
  {
    match item
    case Int(ty, v) => RoundTrip(ty, v, rest);
    case Str(s) => StrRoundTrip(s, rest);
    case Id(a) => IdRoundTrip(a, ActorId(0, 0, 0, 0), rest);
    case Exit(x) => ExitRoundTrip(x, ActorExit(0, []), rest);
  }

  predicate AllOk(items: seq<Item>) { forall k | 0 <= k < |items| :: ItemOk(items[k]) }

  /** The bytes of each item. */
  function Pieces(items: seq<Item>): (r: seq<seq<byte>>)
    requires AllOk(items)
    ensures |r| == |items| && forall k | 0 <= k < |items| :: r[k] == EncodeItem(items[k])
  {
    seq(|items|, k requires 0 <= k < |items| => EncodeItem(items[k]))
  }

  function Flat(pieces: seq<seq<byte>>): seq<byte> {
    if pieces == [] then [] else Flat(pieces[..|pieces| - 1]) + pieces[|pieces| - 1]
  }

  function EncodeAll(items: seq<Item>): seq<byte>
    requires AllOk(items)
  {
    Flat(Pieces(items))
  }

  /** The bytes fall into the first k pieces, the next, and the others. */
  lemma {:induction false} FlatAt(pieces: seq<seq<byte>>, k: nat)
    requires k < |pieces|
    ensures Flat(pieces[..k + 1]) == Flat(pieces[..k]) + pieces[k]
    ensures exists more :: Flat(pieces) == Flat(pieces[..k]) + pieces[k] + more
  {
    assert pieces[..k + 1][..k] == pieces[..k];
    var n := |pieces| - 1;
    if k == n {
      assert pieces[..k + 1] == pieces;
      assert Flat(pieces) == Flat(pieces[..k]) + pieces[k] + [];
    } else {
      FlatAt(pieces[..n], k);
      assert pieces[..n][..k] == pieces[..k];
      var more :| Flat(pieces[..n]) == Flat(pieces[..k]) + pieces[k] + more;
      Regroup(Flat(pieces[..k]) + pieces[k], more, pieces[n]);
    }
  }

  lemma EncodeAt(items: seq<Item>, k: nat)
    requires AllOk(items) && k < |items|
    ensures EncodeAll(items[..k + 1]) == EncodeAll(items[..k]) + EncodeItem(items[k])
    ensures exists more :: EncodeAll(items) == EncodeAll(items[..k]) + EncodeItem(items[k]) + more
  {
    FlatAt(Pieces(items), k);
    assert Pieces(items[..k]) == Pieces(items)[..k] && Pieces(items[..k + 1]) == Pieces(items)[..k + 1];
  }

  lemma EncodePush(items: seq<Item>, item: Item)
    requires AllOk(items) && ItemOk(item)
    ensures AllOk(items + [item]) && EncodeAll(items + [item]) == EncodeAll(items) + EncodeItem(item)
  {
    var all := items + [item];
    assert all[..|items|] == items && all[..|items| + 1] == all;
    EncodeAt(all, |items|);
  }

  // ------------------------------------------------------------- plain messages

  /** A message as its users see it: the items put so far and how many of them
      have been got. */
  datatype Msg = Msg(items: seq<Item>, next: nat)

  ghost predicate Holds(v: Value, m: Msg) {
    && AllOk(m.items) && m.next <= |m.items|
    && v.bytes == EncodeAll(m.items) && v.read == |EncodeAll(m.items[..m.next])|
  }

  /** Value by value and message by message. */
  ghost predicate Related(R: (Value, Msg) -> bool, vs: seq<Value>, ms: seq<Msg>) {
    |vs| == |ms| && forall i | 0 <= i < |vs| :: R(vs[i], ms[i])
  }

  lemma RelatedUpdate(R: (Value, Msg) -> bool, vs: seq<Value>, ms: seq<Msg>, i: nat, v: Value, m: Msg)
    requires Related(R, vs, ms) && i < |vs| && R(v, m)
    ensures Related(R, vs[i := v], ms[i := m])
  {
  }

  lemma EmptyHolds()
    ensures Holds(Value([], 0), Msg([], 0))
  {
  }

  /** A message starts empty, and a copy is read from its first item. */
  lemma FromStart(v: Value, m: Msg)
    requires Holds(v, m)
    ensures Holds(Value(v.bytes, 0), Msg(m.items, 0)) && Holds(Value([], 0), Msg([], 0))
  {
    assert m.items[..0] == [];
  }

  ghost predicate HoldAll(vs: seq<Value>, ms: seq<Msg>) { Related(Holds, vs, ms) }

  datatype Op =
    | New | Copy(j: nat) | Move(j: nat) | Assign(i: nat, j: nat) | MoveAssign(i: nat, j: nat)
    | Clear(i: nat) | Destroy(i: nat) | Put(i: nat, item: Item) | Get(i: nat, kind: Kind)

  /** A get asks for the type of the item that is next, and that item is one that
      comes back. */
  predicate Legal(ms: seq<Msg>, op: Op) {
    match op
    case New => true
    case Copy(j) => j < |ms|
    case Move(j) => j < |ms|
    case Assign(i, j) => i < |ms| && j < |ms|
    case MoveAssign(i, j) => i < |ms| && j < |ms|
    case Clear(i) => i < |ms|
    case Destroy(i) => i < |ms|
    case Put(i, item) => i < |ms| && ItemOk(item)
    case Get(i, kind) =>
      && i < |ms| && ms[i].next < |ms[i].items| && Survives(ms[i].items[ms[i].next])
      && KindOk(kind) && kind == KindOf(ms[i].items[ms[i].next])
  }

  function Effect(ms: seq<Msg>, op: Op): seq<Msg>
    requires Legal(ms, op)
  {
    match op
    case New => ms + [Msg([], 0)]
    case Copy(j) => ms + [Msg(ms[j].items, 0)]
    case Move(j) => ms[j := Msg([], 0)] + [Msg(ms[j].items, 0)]
    case Assign(i, j) => if i == j then ms else ms[i := Msg(ms[j].items, 0)]
    case MoveAssign(i, j) => if i == j then ms else ms[i := Msg(ms[j].items, 0)][j := Msg([], 0)]
    case Clear(i) => ms[i := Msg([], 0)]
    case Destroy(i) => Without(ms, i)
    case Put(i, item) => ms[i := Msg(ms[i].items + [item], ms[i].next)]
    case Get(i, _) => ms[i := Msg(ms[i].items, ms[i].next + 1)]
  }

  /** What a get of this operation returns. */
  function Answer(ms: seq<Msg>, op: Op): seq<Item>
    requires Legal(ms, op)
  {
    if op.Get? then [ms[op.i].items[ms[op.i].next]] else []
  }

  predicate LegalRun(ms: seq<Msg>, ops: seq<Op>)
    decreases |ops|
  {
    ops == [] || (Legal(ms, ops[0]) && LegalRun(Effect(ms, ops[0]), ops[1..]))
  }

  function After(ms: seq<Msg>, ops: seq<Op>): seq<Msg>
    requires LegalRun(ms, ops)
    decreases |ops|
  {
    if ops == [] then ms else After(Effect(ms, ops[0]), ops[1..])
  }

  function Answers(ms: seq<Msg>, ops: seq<Op>): seq<Item>
    requires LegalRun(ms, ops)
    decreases |ops|
  {
    if ops == [] then [] else Answer(ms, ops[0]) + Answers(Effect(ms, ops[0]), ops[1..])
  }

  /** The operations that a message leaves to its buffer. */
  function OnBuffers(op: Op): CowBuffers.Op
    requires !op.Put? && !op.Get?
  {
    match op
    case New => CowBuffers.Op.New
    case Copy(j) => CowBuffers.Op.Copy(j)
    case Move(j) => CowBuffers.Op.Move(j)
    case Assign(i, j) => CowBuffers.Op.Assign(i, j)
    case MoveAssign(i, j) => CowBuffers.Op.MoveAssign(i, j)
    case Clear(i) => CowBuffers.Op.Clear(i)
    case Destroy(i) => CowBuffers.Op.Destroy(i)
  }

  /** They keep every relation that the empty message satisfies and that does not
      look at how much has been read. */
  lemma HandlesKeep(R: (Value, Msg) -> bool, vs: seq<Value>, ms: seq<Msg>, op: Op)
    requires Related(R, vs, ms) && Legal(ms, op) && !op.Put? && !op.Get?
    requires R(Value([], 0), Msg([], 0))
    requires forall v, m | R(v, m) :: R(Value(v.bytes, 0), Msg(m.items, 0))
    ensures Related(R, CowBuffers.Apply(vs, OnBuffers(op)), Effect(ms, op))
  {
  }

  lemma HandlesHold(vs: seq<Value>, ms: seq<Msg>, op: Op)
    requires HoldAll(vs, ms) && Legal(ms, op) && !op.Put? && !op.Get?
    ensures HoldAll(CowBuffers.Apply(vs, OnBuffers(op)), Effect(ms, op))
  {
    EmptyHolds();
    forall v, m | Holds(v, m) ensures Holds(Value(v.bytes, 0), Msg(m.items, 0)) { FromStart(v, m); }
    HandlesKeep(Holds, vs, ms, op);
  }

  lemma PutHolds(v: Value, m: Msg, item: Item)
    requires Holds(v, m) && ItemOk(item)
    ensures Holds(Value(v.bytes + EncodeItem(item), v.read), Msg(m.items + [item], m.next))
  {
    EncodePush(m.items, item);
    assert (m.items + [item])[..m.next] == m.items[..m.next];
  }

  lemma TailAt(all: seq<byte>, a: seq<byte>, b: seq<byte>, c: seq<byte>, slack: seq<byte>)
    requires all == a + b + c
    ensures |a| + |b| <= |all| && all[|a|..] + slack == b + (c + slack)
  {
    assert all[|a|..] == b + c;
  }

  /** A get of the next item, whatever lies behind the bytes written. */
  lemma GetHolds(v: Value, m: Msg, slack: seq<byte>)
    requires Holds(v, m) && m.next < |m.items| && Survives(m.items[m.next])
    ensures v.read <= |v.bytes|
    ensures var item := m.items[m.next];
            && DecodeItem(KindOf(item), v.bytes[v.read..] + slack) == Ok(item, |EncodeItem(item)|)
            && v.read + |EncodeItem(item)| <= |v.bytes|
            && Holds(Value(v.bytes, v.read + |EncodeItem(item)|), Msg(m.items, m.next + 1))
  {
    var more := NextBytes(v, m, slack);
    ItemRoundTrip(m.items[m.next], more);
    HoldsNext(v, m);
  }

  /** The same, with the other messages: what the get gives, and what it leaves. */
  lemma GetRelated(vs: seq<Value>, ms: seq<Msg>, i: nat, kind: Kind, slack: seq<byte>) returns (item: Item, n: nat, now: Value)
    requires HoldAll(vs, ms) && Legal(ms, Op.Get(i, kind))
    ensures [item] == Answer(ms, Op.Get(i, kind)) && vs[i].read + n <= |vs[i].bytes|
    ensures DecodeItem(kind, vs[i].bytes[vs[i].read..] + slack) == Ok(item, n)
    ensures now == Value(vs[i].bytes, vs[i].read + n) && HoldAll(vs[i := now], Effect(ms, Op.Get(i, kind)))
  {
    var v, m := vs[i], ms[i];
    item := m.items[m.next];
    GetHolds(v, m, slack);
    n := |EncodeItem(item)|;
    now := Value(v.bytes, v.read + n);
    RelatedUpdate(Holds, vs, ms, i, now, Msg(m.items, m.next + 1));
  }

  lemma HoldsNext(v: Value, m: Msg)
    requires Holds(v, m) && m.next < |m.items|
    ensures Holds(Value(v.bytes, v.read + |EncodeItem(m.items[m.next])|), Msg(m.items, m.next + 1))
  {
    EncodeAt(m.items, m.next);
  }

  /** Where a get of the next item starts to read: its bytes, and then others. */
  lemma NextBytes(v: Value, m: Msg, slack: seq<byte>) returns (more: seq<byte>)
    requires Holds(v, m) && m.next < |m.items|
    ensures v.read + |EncodeItem(m.items[m.next])| <= |v.bytes|
    ensures v.bytes[v.read..] + slack == EncodeItem(m.items[m.next]) + more
  {
    var piece := EncodeItem(m.items[m.next]);
    EncodeAt(m.items, m.next);
    var rest :| EncodeAll(m.items) == EncodeAll(m.items[..m.next]) + piece + rest;
    TailAt(v.bytes, EncodeAll(m.items[..m.next]), piece, rest, slack);
    more := rest + slack;
  }

  // --------------------------------------------------------------- the messages

  class MessageStore {
    const store: Store
    const stream: ZeroCopyBuffer

    ghost predicate Valid()
      reads this, store, stream
    {
      store.Valid() && stream.Valid()
    }

    constructor ()
      ensures Valid() && fresh(store) && fresh(stream) && store.Values() == []
    {
      store := new Store();
      stream := new ZeroCopyBuffer();
    }

    method WriteItem(item: Item) returns (ok: bool)
      requires Valid() && ItemOk(item)
      modifies stream
      ensures Valid() && |stream.writeMem| == |old(stream.writeMem)|
      ensures ok <==> |EncodeItem(item)| <= old(stream.Room())
      ensures ok ==> stream.Written() == old(stream.Written()) + EncodeItem(item)
    {
      match item {
        case Int(ty, v) => ok := stream.WriteInt(ty, v);
        case Str(s) => ok := stream.WriteStr(s);
        case Id(a) => ok := stream.WriteId(a);
        case Exit(x) => ok := stream.WriteExit(x);
      }
    }

    method ReadItem(k: Kind) returns (r: Result<Item>)
      requires Valid() && KindOk(k)
      modifies stream`readPos, stream`bad
      ensures Valid()
      ensures r == DecodeItem(k, old(stream.Unread()))
      ensures r.Ok? ==> stream.Unread() == old(stream.Unread())[r.used..] && stream.readPos == old(stream.readPos) + r.used
    {
      match k {
        case IntKind(ty) =>
          var v := stream.ReadInt(ty);
          r := Tagged(v, v => Int(ty, v));
        case StrKind =>
          var s := stream.ReadStr();
          r := Tagged(s, s => Str(s));
        case IdKind =>
          var a := stream.ReadId(ActorId(0, 0, 0, 0));
          r := Tagged(a, a => Id(a));
        case ExitKind =>
          var x := stream.ReadExit(ActorExit(0, []));
          r := Tagged(x, x => Exit(x));
      }
    }

    /** Appends any item, negative or not: the span reserved is never overflown,
        and no other message changes. */
    method Put(i: nat, item: Item) returns (ok: bool)
      requires Valid() && i < |store.handles| && ItemOk(item)
      modifies store, stream
      ensures Valid() && ok
      ensures var v := old(store.Values())[i];
              store.Values() == old(store.Values())[i := Value(v.bytes + EncodeItem(item), v.read)]
    {
      SizeCovers(item);
      var grown := store.Reserve(i, SizeOfItem(item));
      stream.SetWrite(store.Span(i));
      ok := WriteItem(item);
      assert stream.Written() == EncodeItem(item);
      store.Fill(i, stream.Written());
      assert store.Span(i)[..stream.writePos] == EncodeItem(item);
      var n := store.Write(i, stream.writePos);
    }

    /** Reads from what is written and not read, and from whatever the buffer holds
        behind it. Bytes that were not written are not counted as read. */
    method Get(i: nat, k: Kind) returns (r: Result<Item>)
      requires Valid() && i < |store.handles| && KindOk(k)
      modifies store, stream
      ensures Valid()
      ensures var v := old(store.Values())[i];
              && v.read <= |v.bytes|
              && r == DecodeItem(k, v.bytes[v.read..] + old(store.Span(i)))
              && store.Values() == old(store.Values())[i :=
                   if r.Ok? && v.read + r.used <= |v.bytes| then Value(v.bytes, v.read + r.used) else v]
    {
      Aim(i);
      r := ReadItem(k);
      SameValue(store.Values(), i);
      if r.Ok? { Settle(i, stream.readPos); }
    }

    /** Counts what the stream has read. */
    method Settle(i: nat, n: nat)
      requires Valid() && i < |store.handles|
      modifies store`handles
      ensures Valid()
      ensures var v := old(store.Values())[i];
              store.Values() == old(store.Values())[i := if v.read + n <= |v.bytes| then Value(v.bytes, v.read + n) else v]
    {
      SameValue(store.Values(), i);
      var r := store.Read(i, n);
    }

    /** Lets the stream read what is not read of a message. */
    method Aim(i: nat)
      requires Valid() && i < |store.handles|
      modifies stream`readMem, stream`readPos, stream`bad
      ensures Valid() && stream.readPos == 0
      ensures var v := store.Values()[i];
              v.read <= |v.bytes| && stream.Unread() == v.bytes[v.read..] + store.Span(i)
    {
      Unread(store.handles[i], store.blocks);
      stream.SetRead(store.ReadSpan(i));
    }

    // ------------------------------------------------------------ any sequence

    /** A copy, a move, an assignment, a clear or the end of a message. */
    method StepHandles(op: Op, ghost ms: seq<Msg>)
      requires Valid() && HoldAll(store.Values(), ms) && Legal(ms, op) && !op.Put? && !op.Get?
      modifies store
      ensures Valid() && HoldAll(store.Values(), Effect(ms, op))
    {
      HandlesHold(store.Values(), ms, op);
      store.Step(OnBuffers(op));
    }

    method StepPut(i: nat, item: Item, ghost ms: seq<Msg>)
      requires Valid() && HoldAll(store.Values(), ms) && Legal(ms, Op.Put(i, item))
      modifies store, stream
      ensures Valid() && HoldAll(store.Values(), Effect(ms, Op.Put(i, item)))
    {
      ghost var vs := store.Values();
      PutHolds(vs[i], ms[i], item);
      RelatedUpdate(Holds, vs, ms, i, Value(vs[i].bytes + EncodeItem(item), vs[i].read), Msg(ms[i].items + [item], ms[i].next));
      var ok := Put(i, item);
    }

    /** A get whose outcome is known. */
    method GetKnown(i: nat, kind: Kind, ghost item: Item, ghost n: nat, ghost now: Value) returns (got: Item)
      requires Valid() && i < |store.handles| && KindOk(kind)
      requires var v := store.Values()[i];
               && v.read + n <= |v.bytes| && now == Value(v.bytes, v.read + n)
               && DecodeItem(kind, v.bytes[v.read..] + store.Span(i)) == Ok(item, n)
      modifies store, stream
      ensures Valid() && got == item && store.Values() == old(store.Values())[i := now]
    {
      var r := Get(i, kind);
      got := r.value;
    }

    method StepGet(i: nat, kind: Kind, ghost ms: seq<Msg>) returns (got: Item)
      requires Valid() && HoldAll(store.Values(), ms) && Legal(ms, Op.Get(i, kind))
      modifies store, stream
      ensures Valid() && HoldAll(store.Values(), Effect(ms, Op.Get(i, kind)))
      ensures [got] == Answer(ms, Op.Get(i, kind))
    {
      ghost var item, n, now := GetRelated(store.Values(), ms, i, kind, store.Span(i));
      got := GetKnown(i, kind, item, n, now);
    }

    method Step(op: Op, ghost ms: seq<Msg>) returns (got: seq<Item>)
      requires Valid() && HoldAll(store.Values(), ms) && Legal(ms, op)
      modifies store, stream
      ensures Valid() && HoldAll(store.Values(), Effect(ms, op))
      ensures got == Answer(ms, op)
    {
      got := [];
      if op.Put? {
        StepPut(op.i, op.item, ms);
      } else if op.Get? {
        var item := StepGet(op.i, op.kind, ms);
        got := [item];
      } else {
        StepHandles(op, ms);
      }
    }

    /** Runs any sequence of puts, gets, copies, moves, assignments, clears and ends
        over any number of messages. Every get returns the item that is next in its
        message, whatever messages share and however large they have grown. */
    method Perform(ops: seq<Op>, ghost ms: seq<Msg>) returns (got: seq<Item>)
      requires Valid() && HoldAll(store.Values(), ms) && LegalRun(ms, ops)
      modifies store, stream
      ensures Valid() && HoldAll(store.Values(), After(ms, ops))
      ensures got == Answers(ms, ops)
      decreases |ops|
    {
      if ops == [] { return []; }
      got := Step(ops[0], ms);
      var more := Perform(ops[1..], Effect(ms, ops[0]));
      got := got + more;
    }
  }
}
