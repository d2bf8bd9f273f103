/** Copy-on-write buffers. A handle keeps few bytes inside itself and more in a
    counted block, which handles share until one of them writes. A Store is the
    memory all of them live in: handles and blocks are known by their numbers. */
module CowBuffers {
  import opened Bytes

  const SMALL_SIZE: nat := 64

  datatype Ptr = Null | To(b: nat)

  /** A block is released to its pool when its last handle leaves it. */
  datatype Block = Block(count: int, data: seq<byte>, released: bool)

  datatype Handle = Handle(isSmall: bool, small: seq<byte>, large: Ptr, writeSize: nat, readSize: nat)

  /** What a handle is worth to its user: the bytes written, and how many of them
      have been read. */
  datatype Value = Value(bytes: seq<byte>, read: nat)

  // ----------------------------------------------------- counts and their change

  function Incr(blocks: seq<Block>, p: Ptr): seq<Block> {
    if p.To? && p.b < |blocks| then blocks[p.b := blocks[p.b].(count := blocks[p.b].count + 1)] else blocks
  }

  function Left(x: Block): Block { x.(count := x.count - 1, released := x.released || x.count == 1) }

  function Decr(blocks: seq<Block>, p: Ptr): seq<Block> {
    if p.To? && p.b < |blocks| then blocks[p.b := Left(blocks[p.b])] else blocks
  }

  /** How many handles point to block b. */
  function Users(handles: seq<Handle>, b: nat): nat {
    if handles == [] then 0
    else Users(handles[..|handles| - 1], b) + (if handles[|handles| - 1].large == To(b) then 1 else 0)
  }

  ghost predicate Counted(handles: seq<Handle>, blocks: seq<Block>) {
    forall b | 0 <= b < |blocks| :: CountOk(blocks[b], Users(handles, b))
  }

  /** The count is the number of users, and without any the block is released. */
  predicate CountOk(x: Block, users: nat) { x.count == users && (x.released <==> users == 0) }

  /** Some handle has the pointer, or it is null. */
  ghost predicate Held(handles: seq<Handle>, p: Ptr) { p.To? ==> exists j :: 0 <= j < |handles| && handles[j].large == p }

  lemma {:induction false} UsersUpdate(handles: seq<Handle>, i: nat, h: Handle, b: nat)
    requires i < |handles|
    ensures Users(handles[i := h], b) + (if handles[i].large == To(b) then 1 else 0)
         == Users(handles, b) + (if h.large == To(b) then 1 else 0)
  {
    var n := |handles| - 1;
    if i < n {
      UsersUpdate(handles[..n], i, h, b);
      assert handles[i := h][..n] == handles[..n][i := h];
    } else {
      assert handles[i := h][..n] == handles[..n];
    }
  }

  /** A block that no other handle may be pointing to is used by one at most. */
  lemma {:induction false} SoleUser(handles: seq<Handle>, i: nat, j: nat, b: nat)
    requires i < j < |handles| && handles[i].large == handles[j].large == To(b)
    ensures Users(handles, b) >= 2
  {
    var n := |handles| - 1;
    if j < n { SoleUser(handles[..n], i, j, b); }
    else { SomeUser(handles[..n], i, To(b)); }
  }

  lemma {:induction false} SomeUser(handles: seq<Handle>, i: nat, p: Ptr)
    requires i < |handles| && handles[i].large == p
    ensures p.To? ==> Users(handles, p.b) >= 1
  {
    var n := |handles| - 1;
    if i < n { SomeUser(handles[..n], i, p); }
  }

  lemma HeldUser(handles: seq<Handle>, p: Ptr)
    requires Held(handles, p)
    ensures p.To? ==> Users(handles, p.b) >= 1
  {
    if p.To? {
      var j :| 0 <= j < |handles| && handles[j].large == p;
      SomeUser(handles, j, p);
    }
  }

  lemma {:induction false} NoUser(handles: seq<Handle>, b: nat)
    requires forall i | 0 <= i < |handles| :: handles[i].large != To(b)
    ensures Users(handles, b) == 0
  {
    if handles != [] { NoUser(handles[..|handles| - 1], b); }
  }

  /** A handle that points elsewhere takes one count along. */
  lemma Recounted(handles: seq<Handle>, blocks: seq<Block>, i: nat, h: Handle)
    requires Counted(handles, blocks) && i < |handles| && Held(handles, h.large)
    ensures Counted(handles[i := h], Decr(Incr(blocks, h.large), handles[i].large))
  {
    var handles', blocks' := handles[i := h], Decr(Incr(blocks, h.large), handles[i].large);
    forall b | 0 <= b < |blocks| ensures CountOk(blocks'[b], Users(handles', b)) {
      assert CountOk(blocks[b], Users(handles, b));
      UsersUpdate(handles, i, h, b);
      SomeUser(handles, i, handles[i].large);
      HeldUser(handles, h.large);
    }
  }

  /** A pointer that moves from handle j to handle i keeps its count. */
  lemma RecountedMove(handles: seq<Handle>, blocks: seq<Block>, i: nat, j: nat, hi: Handle, hj: Handle)
    requires Counted(handles, blocks) && i < |handles| && j < |handles| && i != j
    requires hi.large == handles[j].large && hj.large == Null
    ensures Counted(handles[i := hi][j := hj], Decr(blocks, handles[i].large))
  {
    var handles', blocks' := handles[i := hi][j := hj], Decr(blocks, handles[i].large);
    forall b | 0 <= b < |blocks| ensures CountOk(blocks'[b], Users(handles', b)) {
      assert CountOk(blocks[b], Users(handles, b));
      UsersUpdate(handles, i, hi, b);
      UsersUpdate(handles[i := hi], j, hj, b);
      SomeUser(handles, i, handles[i].large);
    }
  }

  // ------------------------------------------------------------------ one handle

  predicate HandleOk(h: Handle, blocks: seq<Block>) {
    && |h.small| == SMALL_SIZE
    && (h.isSmall <==> h.large == Null)
    && (h.large.To? ==> h.large.b < |blocks|)
    && h.readSize <= h.writeSize <= Capacity(h, blocks)
  }

  /** The size of `data()`. */
  function Capacity(h: Handle, blocks: seq<Block>): nat {
    if h.large.To? && h.large.b < |blocks| then |blocks[h.large.b].data| else |h.small|
  }

  function View(h: Handle, blocks: seq<Block>): Value
    requires HandleOk(h, blocks)
  {
    Value(if h.isSmall then h.small[..h.writeSize] else blocks[h.large.b].data[..h.writeSize], h.readSize)
  }

  /** The bytes from the end of what is written to the end of the buffer. */
  function Rest(h: Handle, blocks: seq<Block>): seq<byte>
    requires HandleOk(h, blocks)
  {
    (if h.isSmall then h.small else blocks[h.large.b].data)[h.writeSize..]
  }

  /** Counting more bytes as written appends the first bytes of the rest. */
  lemma Longer(h: Handle, blocks: seq<Block>, size: nat)
    requires HandleOk(h, blocks) && size <= |Rest(h, blocks)|
    ensures var h' := h.(writeSize := h.writeSize + size);
            HandleOk(h', blocks) && View(h', blocks) == Value(View(h, blocks).bytes + Rest(h, blocks)[..size], h.readSize)
  {
    var d, w := if h.isSmall then h.small else blocks[h.large.b].data, h.writeSize;
    assert d[..w + size] == d[..w] + d[w..][..size];
  }

  /** What is not read yet is what is written and not read, and then the rest. */
  lemma Unread(h: Handle, blocks: seq<Block>)
    requires HandleOk(h, blocks)
    ensures var d := if h.isSmall then h.small else blocks[h.large.b].data;
            d[h.readSize..] == View(h, blocks).bytes[h.readSize..] + Rest(h, blocks)
  {
  }

  function GrowNormalize(size: nat): nat { if size < SMALL_SIZE then SMALL_SIZE else size }

  // ----------------------------------------------------------------- all handles

  /** Every handle is well formed, and the count of every block is the number of
      handles that point to it. */
  ghost predicate Fine(handles: seq<Handle>, blocks: seq<Block>) {
    && (forall i | 0 <= i < |handles| :: HandleOk(handles[i], blocks))
    && Counted(handles, blocks)
  }

  function Views(handles: seq<Handle>, blocks: seq<Block>): (r: seq<Value>)
    requires forall i | 0 <= i < |handles| :: HandleOk(handles[i], blocks)
    ensures |r| == |handles|
    ensures forall i | 0 <= i < |handles| :: r[i] == View(handles[i], blocks)
  {
    if handles == [] then []
    else Views(handles[..|handles| - 1], blocks) + [View(handles[|handles| - 1], blocks)]
  }

  /** Counts do not matter to what a handle is worth. */
  lemma SameData(blocks: seq<Block>, p: Ptr, q: Ptr)
    ensures |Decr(Incr(blocks, p), q)| == |blocks|
    ensures forall h | HandleOk(h, blocks) ::
              HandleOk(h, Decr(Incr(blocks, p), q)) && View(h, Decr(Incr(blocks, p), q)) == View(h, blocks)
  {
  }

  /** Handle i is replaced by h: only its own worth changes. */
  lemma Replaced(handles: seq<Handle>, blocks: seq<Block>, i: nat, h: Handle)
    requires Fine(handles, blocks) && i < |handles| && HandleOk(h, blocks) && Held(handles, h.large)
    ensures var handles', blocks' := handles[i := h], Decr(Incr(blocks, h.large), handles[i].large);
            Fine(handles', blocks') && Views(handles', blocks') == Views(handles, blocks)[i := View(h, blocks)]
  {
    SameData(blocks, h.large, handles[i].large);
    Recounted(handles, blocks, i, h);
  }

  /** Handle i takes over the pointer of handle j. */
  lemma ReplacedMove(handles: seq<Handle>, blocks: seq<Block>, i: nat, j: nat, hi: Handle, hj: Handle)
    requires Fine(handles, blocks) && i < |handles| && j < |handles| && i != j
    requires HandleOk(hi, blocks) && HandleOk(hj, blocks) && hi.large == handles[j].large && hj.large == Null
    ensures var handles', blocks' := handles[i := hi][j := hj], Decr(blocks, handles[i].large);
            && Fine(handles', blocks')
            && Views(handles', blocks') == Views(handles, blocks)[i := View(hi, blocks)][j := View(hj, blocks)]
  {
    SameData(blocks, Null, handles[i].large);
    RecountedMove(handles, blocks, i, j, hi, hj);
  }

  lemma SameValue(vs: seq<Value>, i: nat)
    requires i < |vs|
    ensures vs[i := vs[i]] == vs
  {
  }

  lemma Unchanged(handles: seq<Handle>, blocks: seq<Block>, i: nat)
    requires Fine(handles, blocks) && i < |handles|
    ensures var v := View(handles[i], blocks);
            && v == Value(v.bytes + Rest(handles[i], blocks)[..0], v.read)
            && Views(handles, blocks)[i := v] == Views(handles, blocks)
  {
    SameValue(Views(handles, blocks), i);
  }

  /** A handle that keeps its pointer. */
  lemma Repositioned(handles: seq<Handle>, blocks: seq<Block>, i: nat, h: Handle)
    requires Fine(handles, blocks) && i < |handles| && HandleOk(h, blocks) && h.large == handles[i].large
    ensures Fine(handles[i := h], blocks)
    ensures Views(handles[i := h], blocks) == Views(handles, blocks)[i := View(h, blocks)]
  {
    Replaced(handles, blocks, i, h);
    assert Decr(Incr(blocks, h.large), h.large) == blocks;
  }

  lemma SameHandle(handles: seq<Handle>, i: nat)
    requires i < |handles|
    ensures handles[i := handles[i]] == handles
  {
  }

  /** No other handle points to a block that is counted once. */
  lemma Alone(handles: seq<Handle>, blocks: seq<Block>, i: nat, j: nat, b: nat)
    requires Fine(handles, blocks) && i < |handles| && j < |handles| && i != j
    requires handles[i].large == To(b) && b < |blocks| && blocks[b].count <= 1
    ensures handles[j].large != To(b)
  {
    if handles[j].large == To(b) {
      if i < j { SoleUser(handles, i, j, b); } else { SoleUser(handles, j, i, b); }
    }
  }

  /** A block used by one handle gets new bytes: only that handle sees them. */
  lemma PrivateBytes(handles: seq<Handle>, blocks: seq<Block>, i: nat, h: Handle, b: nat, data: seq<byte>)
    requires Fine(handles, blocks) && i < |handles| && handles[i].large == h.large == To(b)
    requires b < |blocks| && blocks[b].count <= 1 && HandleOk(h, blocks[b := blocks[b].(data := data)])
    ensures var handles', blocks' := handles[i := h], blocks[b := blocks[b].(data := data)];
            Fine(handles', blocks') && Views(handles', blocks') == Views(handles, blocks)[i := View(h, blocks')]
  {
    var handles', blocks' := handles[i := h], blocks[b := blocks[b].(data := data)];
    forall c | 0 <= c < |blocks| ensures CountOk(blocks'[c], Users(handles', c)) {
      UsersUpdate(handles, i, h, c);
      if c < |blocks| { assert CountOk(blocks[c], Users(handles, c)); }
      SomeUser(handles, i, handles[i].large);
    }
    forall j | 0 <= j < |handles| && j != i
      ensures HandleOk(handles[j], blocks') && View(handles[j], blocks') == View(handles[j], blocks)
    {
      Alone(handles, blocks, i, j, b);
    }
  }

  lemma FreshCounts(handles: seq<Handle>, blocks: seq<Block>, i: nat, h: Handle, data: seq<byte>)
    requires Fine(handles, blocks) && i < |handles| && h.large == To(|blocks|)
    ensures Counted(handles[i := h], Decr(blocks, handles[i].large) + [Block(1, data, false)])
  {
    var handles', blocks' := handles[i := h], Decr(blocks, handles[i].large) + [Block(1, data, false)];
    NoUser(handles, |blocks|);
    forall c | 0 <= c < |blocks'| ensures CountOk(blocks'[c], Users(handles', c)) {
      UsersUpdate(handles, i, h, c);
      if c < |blocks| { assert CountOk(blocks[c], Users(handles, c)); }
      SomeUser(handles, i, handles[i].large);
    }
  }

  /** One more block, and other counts, do not matter to what a handle is worth. */
  lemma SameDataMore(blocks: seq<Block>, p: Ptr, more: Block)
    ensures forall h | HandleOk(h, blocks) ::
              HandleOk(h, Decr(blocks, p) + [more]) && View(h, Decr(blocks, p) + [more]) == View(h, blocks)
  {
  }

  /** Handle i moves to a block that was not there before. */
  lemma FreshBlock(handles: seq<Handle>, blocks: seq<Block>, i: nat, h: Handle, data: seq<byte>)
    requires Fine(handles, blocks) && i < |handles| && h.large == To(|blocks|)
    requires HandleOk(h, blocks + [Block(1, data, false)])
    ensures var handles', blocks' := handles[i := h], Decr(blocks, handles[i].large) + [Block(1, data, false)];
            && Fine(handles', blocks')
            && HandleOk(h, blocks') && Views(handles', blocks') == Views(handles, blocks)[i := View(h, blocks')]
  {
    FreshCounts(handles, blocks, i, h, data);
    SameDataMore(blocks, handles[i].large, Block(1, data, false));
  }

  /** A block is released just when no handle points to it, so that no handle sees
      the bytes of a released block. */
  lemma ReleasedWhenLeft(handles: seq<Handle>, blocks: seq<Block>, b: nat)
    requires Fine(handles, blocks) && b < |blocks|
    ensures blocks[b].released <==> forall i | 0 <= i < |handles| :: handles[i].large != To(b)
  {
    assert CountOk(blocks[b], Users(handles, b));
    if forall i | 0 <= i < |handles| :: handles[i].large != To(b) {
      NoUser(handles, b);
    } else {
      HeldUser(handles, To(b));
    }
  }

  function Without<T>(xs: seq<T>, i: nat): (r: seq<T>)
    requires i < |xs|
    ensures |r| == |xs| - 1
    ensures forall j | 0 <= j < |r| :: r[j] == xs[if j < i then j else j + 1]
  {
    xs[..i] + xs[i + 1..]
  }

  lemma {:induction false} UsersWithout(handles: seq<Handle>, i: nat, b: nat)
    requires i < |handles|
    ensures Users(Without(handles, i), b) + (if handles[i].large == To(b) then 1 else 0) == Users(handles, b)
  {
    var n := |handles| - 1;
    if i < n {
      UsersWithout(handles[..n], i, b);
      assert Without(handles, i)[..n - 1] == Without(handles[..n], i);
    } else {
      assert Without(handles, i) == handles[..n];
    }
  }

  /** A handle is gone, and its count with it. */
  lemma Gone(handles: seq<Handle>, blocks: seq<Block>, i: nat)
    requires Fine(handles, blocks) && i < |handles|
    ensures var handles', blocks' := Without(handles, i), Decr(blocks, handles[i].large);
            Fine(handles', blocks') && Views(handles', blocks') == Without(Views(handles, blocks), i)
  {
    var handles', blocks' := Without(handles, i), Decr(blocks, handles[i].large);
    forall b | 0 <= b < |blocks| ensures CountOk(blocks'[b], Users(handles', b)) {
      assert CountOk(blocks[b], Users(handles, b));
      UsersWithout(handles, i, b);
      SomeUser(handles, i, handles[i].large);
    }
    SameData(blocks, Null, handles[i].large);
  }

  /** The block that a handle leaves is released if nobody else is there. */
  lemma ReleasedBy(handles: seq<Handle>, blocks: seq<Block>, i: nat)
    requires Fine(handles, blocks) && i < |handles|
    ensures var blocks' := Decr(blocks, handles[i].large);
            |blocks'| == |blocks| && forall b | 0 <= b < |blocks| ::
              blocks'[b].released <==> blocks[b].released || (blocks[b].count == 1 && handles[i].large == To(b))
  {
  }

  /** Bytes stored behind the first w leave those, and what is behind them. */
  lemma Filled(data: seq<byte>, w: nat, bytes: seq<byte>)
    requires w + |bytes| <= |data|
    ensures var now := data[..w] + bytes + data[w + |bytes|..];
            |now| == |data| && now[..w] == data[..w] && now[w..] == bytes + data[w..][|bytes|..]
  {
  }

  // ------------------------------------------------------------------- the store

  class Store {
    var handles: seq<Handle>
    var blocks: seq<Block>

    ghost predicate Valid()
      reads this
    {
      Fine(handles, blocks)
    }

    ghost function Values(): seq<Value>
      requires Valid()
      reads this
    {
      Views(handles, blocks)
    }

    constructor ()
      ensures Valid() && Values() == []
    {
      handles, blocks := [], [];
    }

    // ------------------------------------------------- the counted pointer large_

    method IncrRef(p: Ptr)
      modifies this`blocks
      ensures blocks == Incr(old(blocks), p)
    {
      if p.To? && p.b < |blocks| {
        blocks := blocks[p.b := blocks[p.b].(count := blocks[p.b].count + 1)];
      }
    }

    method DecrRef(p: Ptr)
      modifies this`blocks
      ensures blocks == Decr(old(blocks), p)
    {
      if p.To? && p.b < |blocks| {
        blocks := blocks[p.b := Left(blocks[p.b])];
      }
    }

    /** `large_ = p`: a counted copy of p is swapped in, and what was held before
        is dropped with the copy. */
    method SetLarge(i: nat, p: Ptr)
      requires i < |handles|
      modifies this
      ensures handles == old(handles)[i := old(handles)[i].(large := p)]
      ensures blocks == Decr(Incr(old(blocks), p), old(handles)[i].large)
    {
      IncrRef(p);
      var was := handles[i].large;
      handles := handles[i := handles[i].(large := p)];
      DecrRef(was);
    }

    /** `large_ = std::move(other.large_)`: the count moves with the pointer. */
    method MoveLarge(i: nat, j: nat)
      requires i < |handles| && j < |handles| && i != j
      modifies this
      ensures handles == old(handles)[j := old(handles)[j].(large := Null)][i := old(handles)[i].(large := old(handles)[j].large)]
      ensures blocks == Decr(old(blocks), old(handles)[i].large)
    {
      var p := handles[j].large;
      handles := handles[j := handles[j].(large := Null)];
      var was := handles[i].large;
      handles := handles[i := handles[i].(large := p)];
      DecrRef(was);
    }

    /** A block of the pool: nobody else's, of the size asked for at least, with
        arbitrary bytes, and counted once for the variable that receives it. */
    method PoolGet(size: nat) returns (p: Ptr)
      modifies this`blocks
      ensures p == To(|old(blocks)|)
      ensures |blocks| == |old(blocks)| + 1 && blocks[..|old(blocks)|] == old(blocks)
      ensures blocks[p.b].count == 1 && !blocks[p.b].released && |blocks[p.b].data| >= size
    {
      var more :| more >= 0;
      var bytes := Garbage(size + more);
      p := To(|blocks|);
      blocks := blocks + [Block(1, bytes, false)];
    }

    // ------------------------------------------------------- making new handles

    method New() returns (i: nat)
      requires Valid()
      modifies this
      ensures Valid() && i == |old(handles)|
      ensures Values() == old(Values()) + [Value([], 0)]
      ensures blocks == old(blocks) && |handles| == i + 1 && handles[..i] == old(handles)
    {
      var small := Garbage(SMALL_SIZE);
      i := |handles|;
      handles := handles + [Handle(true, small, Null, 0, 0)];
      assert handles[..|handles| - 1] == old(handles);
    }

    /** The copy constructor: a large block is shared. */
    method Copy(j: nat) returns (i: nat)
      requires Valid() && j < |handles|
      modifies this
      ensures Valid() && i == |old(handles)|
      ensures Values() == old(Values()) + [Value(old(Values())[j].bytes, 0)]
      ensures |blocks| == |old(blocks)| && handles[i].large == old(handles)[j].large
    {
      i := New();
      CopyFrom(i, j);
    }

    /** What the copy constructor and the copy assignment do to handle i. */
    method CopyFrom(i: nat, j: nat)
      requires Valid() && i < |handles| && j < |handles| && i != j
      modifies this
      ensures Valid() && |handles| == |old(handles)|
      ensures Values() == old(Values())[i := Value(old(Values())[j].bytes, 0)]
      ensures |blocks| == |old(blocks)| && handles[i].large == old(handles)[j].large
    {
      handles := handles[i := handles[i].(readSize := 0)];
      if handles[j].isSmall {
        if !handles[i].isSmall { SetLarge(i, Null); }
        CopySmall(i, j);
      } else {
        SetLarge(i, handles[j].large);
      }
      handles := handles[i := handles[i].(isSmall := handles[j].isSmall, writeSize := handles[j].writeSize)];
      assert handles == old(handles)[i := handles[i]];
      Replaced(old(handles), old(blocks), i, handles[i]);
    }

    /** Copies the written bytes of a small handle. */
    method CopySmall(i: nat, j: nat)
      requires i < |handles| && j < |handles| && handles[j].writeSize <= |handles[j].small| == |handles[i].small|
      modifies this`handles
      ensures |handles| == |old(handles)| && |handles[i].small| == |old(handles)[i].small|
      ensures handles == old(handles)[i := old(handles)[i].(small := handles[i].small)]
      ensures handles[i].small[..handles[j].writeSize] == old(handles)[j].small[..handles[j].writeSize]
    {
      var n := handles[j].writeSize;
      handles := handles[i := handles[i].(small := handles[j].small[..n] + handles[i].small[n..])];
    }

    /** The copy assignment. */
    method Assign(i: nat, j: nat)
      requires Valid() && i < |handles| && j < |handles|
      modifies this
      ensures Valid() && |handles| == |old(handles)|
      ensures Values() == if i == j then old(Values()) else old(Values())[i := Value(old(Values())[j].bytes, 0)]
      ensures |blocks| == |old(blocks)| && handles[i].large == old(handles)[j].large
    {
      if i != j { CopyFrom(i, j); }
    }

    /** The move constructor. */
    method Move(j: nat) returns (i: nat)
      requires Valid() && j < |handles|
      modifies this
      ensures Valid() && i == |old(handles)|
      ensures Values() == old(Values())[j := Value([], 0)] + [Value(old(Values())[j].bytes, 0)]
      ensures |blocks| == |old(blocks)| && handles[i].large == old(handles)[j].large
    {
      i := New();
      MoveFrom(i, j);
    }

    /** What the move constructor and the move assignment do to handles i and j. */
    method MoveFrom(i: nat, j: nat)
      requires Valid() && i < |handles| && j < |handles| && i != j
      modifies this
      ensures Valid() && |handles| == |old(handles)|
      ensures Values() == old(Values())[i := Value(old(Values())[j].bytes, 0)][j := Value([], 0)]
      ensures |blocks| == |old(blocks)| && handles[i].large == old(handles)[j].large
    {
      ghost var hs, bs := handles, blocks;
      handles := handles[i := handles[i].(readSize := 0)];
      if handles[j].isSmall {
        if !handles[i].isSmall { SetLarge(i, Null); }
        CopySmall(i, j);
      } else {
        MoveLarge(i, j);
      }
      assert blocks == Decr(bs, hs[i].large) && handles[i].large == hs[j].large && handles[j].large == Null;
      assert handles[i].small == hs[i].small || handles[i].small[..hs[j].writeSize] == hs[j].small[..hs[j].writeSize];
      handles := handles[i := handles[i].(isSmall := handles[j].isSmall, writeSize := handles[j].writeSize)];
      handles := handles[j := handles[j].(isSmall := true, readSize := 0, writeSize := 0)];
      assert handles == hs[i := handles[i]][j := handles[j]];
      ReplacedMove(hs, bs, i, j, handles[i], handles[j]);
    }

    /** The move assignment. */
    method MoveAssign(i: nat, j: nat)
      requires Valid() && i < |handles| && j < |handles|
      modifies this
      ensures Valid() && |handles| == |old(handles)|
      ensures Values() == if i == j then old(Values())
                          else old(Values())[i := Value(old(Values())[j].bytes, 0)][j := Value([], 0)]
      ensures |blocks| == |old(blocks)| && handles[i].large == old(handles)[j].large
    {
      if i != j { MoveFrom(i, j); }
    }

    method Clear(i: nat)
      requires Valid() && i < |handles|
      modifies this
      ensures Valid() && |handles| == |old(handles)|
      ensures Values() == old(Values())[i := Value([], 0)]
    {
      handles := handles[i := handles[i].(isSmall := true)];
      SetLarge(i, Null);
      handles := handles[i := handles[i].(writeSize := 0, readSize := 0)];
      assert handles == old(handles)[i := handles[i]];
      Replaced(old(handles), old(blocks), i, handles[i]);
    }

    /** The destructor: the handle is gone, and its count with it. */
    method Destroy(i: nat)
      requires Valid() && i < |handles|
      modifies this
      ensures Valid() && Values() == Without(old(Values()), i)
      ensures |blocks| == |old(blocks)| && forall b | 0 <= b < |blocks| ::
                (blocks[b].released <==> old(blocks)[b].released || (old(blocks)[b].count == 1 && old(handles)[i].large == To(b)))
    {
      Gone(handles, blocks, i);
      ReleasedBy(handles, blocks, i);
      DecrRef(handles[i].large);
      handles := Without(handles, i);
    }

    // ------------------------------------------------------- reserve, fill, write

    ghost predicate Private(i: nat)
      requires i < |handles|
      reads this
    {
      handles[i].large.To? && handles[i].large.b < |blocks| ==> blocks[handles[i].large.b].count <= 1
    }

    /** The bytes of `get_write()`: from the end of what is written to the end of
        the buffer. */
    function Span(i: nat): seq<byte>
      requires i < |handles| && HandleOk(handles[i], blocks)
      reads this
    {
      Rest(handles[i], blocks)
    }

    /** The bytes of `get_read()`: from the first byte not read to the end of the
        buffer, which may be behind the end of what is written. */
    function ReadSpan(i: nat): seq<byte>
      requires i < |handles| && HandleOk(handles[i], blocks)
      reads this
    {
      (if handles[i].isSmall then handles[i].small else blocks[handles[i].large.b].data)[handles[i].readSize..]
    }

    /** Handle i has the block that it points to together with others. */
    predicate Shared(i: nat)
      requires i < |handles|
      reads this
    {
      handles[i].large.To? && handles[i].large.b < |blocks| && blocks[handles[i].large.b].count > 1
    }

    /** Room for size more bytes that no other handle can see. A block is taken if and
        only if the small buffer is too small, or the block is shared. */
    method Reserve(i: nat, size: nat) returns (grown: nat)
      requires Valid() && i < |handles|
      modifies this
      ensures Valid() && |handles| == |old(handles)| && Values() == old(Values())
      ensures grown == if size == 0 || size >= 64 || (old(handles)[i].isSmall && |old(Span(i))| >= size) then size else 64
      ensures handles[i].isSmall <==> old(handles)[i].isSmall && |old(Span(i))| >= size
      ensures |blocks| == |old(blocks)|
              + if size > 0 && (if old(handles)[i].isSmall then |old(Span(i))| < size else old(Shared(i))) then 1 else 0
      ensures size > 0 ==> size <= grown && Private(i) && |Span(i)| >= size
    {
      if size == 0 { return 0; }
      grown := GrowNormalize(size);
      if handles[i].isSmall {
        if size + handles[i].writeSize > |handles[i].small| {
          ToLarge(i, grown);
        } else {
          grown := size;
        }
      } else if blocks[handles[i].large.b].count > 1 {
        Unshare(i, grown);
      } else {
        Resize(i, grown + handles[i].writeSize);
      }
    }

    /** Leaves the small buffer for a block. */
    method ToLarge(i: nat, grown: nat)
      requires Valid() && i < |handles| && handles[i].isSmall
      modifies this
      ensures Valid() && |handles| == |old(handles)| && Values() == old(Values())
      ensures Private(i) && |Span(i)| >= grown && !handles[i].isSmall && |blocks| == |old(blocks)| + 1
    {
      var w := handles[i].writeSize;
      ghost var hs, bs := handles, blocks;
      var p := PoolGet(grown + w);
      handles := handles[i := handles[i].(large := p)];
      blocks := blocks[p.b := blocks[p.b].(data := handles[i].small[..w] + blocks[p.b].data[w..])];
      handles := handles[i := handles[i].(isSmall := false)];
      ghost var data := blocks[p.b].data;
      assert blocks == Decr(bs, hs[i].large) + [Block(1, data, false)];
      assert handles == hs[i := handles[i]] && data[..w] == hs[i].small[..w];
      FreshBlock(hs, bs, i, handles[i], data);
      SameValue(Views(hs, bs), i);
    }

    /** Copy on write: leaves a shared block for a copy of its own. */
    method Unshare(i: nat, grown: nat)
      requires Valid() && i < |handles| && !handles[i].isSmall
      modifies this
      ensures Valid() && |handles| == |old(handles)| && Values() == old(Values())
      ensures Private(i) && |Span(i)| >= grown && !handles[i].isSmall && |blocks| == |old(blocks)| + 1
    {
      var w := handles[i].writeSize;
      ghost var hs, bs := handles, blocks;
      var p := PoolGet(grown + w);
      var b := handles[i].large.b;
      blocks := blocks[p.b := blocks[p.b].(data := blocks[b].data[..w] + blocks[p.b].data[w..])];
      SetLarge(i, p);
      DecrRef(p);
      assert blocks == Decr(bs, hs[i].large) + [Block(1, blocks[p.b].data, false)];
      FreshBlock(hs, bs, i, handles[i], blocks[p.b].data);
      SameValue(Views(hs, bs), i);
    }

    /** Keeps the bytes that fit; new bytes are arbitrary. */
    method Resize(i: nat, size: nat)
      requires Valid() && i < |handles| && !handles[i].isSmall && Private(i) && size >= handles[i].writeSize
      modifies this`blocks
      ensures Valid() && Values() == old(Values()) && |blocks| == |old(blocks)|
      ensures Private(i) && |Span(i)| == size - handles[i].writeSize
    {
      var b := handles[i].large.b;
      var data := blocks[b].data;
      if size > |data| {
        var fill := Garbage(size - |data|);
        data := data + fill;
      }
      ghost var bs := blocks;
      data := data[..size];
      blocks := blocks[b := blocks[b].(data := data)];
      assert data[..handles[i].writeSize] == bs[b].data[..handles[i].writeSize];
      PrivateBytes(handles, bs, i, handles[i], b, data);
      SameHandle(handles, i);
      SameValue(Views(handles, bs), i);
    }

    /** Stores bytes at the start of the span, without counting them as written. */
    method Fill(i: nat, bytes: seq<byte>)
      requires Valid() && i < |handles| && Private(i) && |bytes| <= |Span(i)|
      modifies this
      ensures Valid() && |handles| == |old(handles)| && Values() == old(Values())
      ensures Private(i) && Span(i) == bytes + old(Span(i))[|bytes|..]
    {
      if handles[i].isSmall { FillSmall(i, bytes); } else { FillLarge(i, bytes); }
    }

    method FillSmall(i: nat, bytes: seq<byte>)
      requires Valid() && i < |handles| && handles[i].isSmall && |bytes| <= |Span(i)|
      modifies this`handles
      ensures Valid() && |handles| == |old(handles)| && Values() == old(Values())
      ensures handles[i].isSmall && Span(i) == bytes + old(Span(i))[|bytes|..]
    {
      var h := handles[i];
      var w, n := h.writeSize, |bytes|;
      ghost var hs := handles;
      Filled(h.small, w, bytes);
      handles := handles[i := h.(small := h.small[..w] + bytes + h.small[w + n..])];
      Repositioned(hs, blocks, i, handles[i]);
      SameValue(Views(hs, blocks), i);
    }

    method FillLarge(i: nat, bytes: seq<byte>)
      requires Valid() && i < |handles| && !handles[i].isSmall && Private(i) && |bytes| <= |Span(i)|
      modifies this`blocks
      ensures Valid() && Values() == old(Values())
      ensures Private(i) && Span(i) == bytes + old(Span(i))[|bytes|..]
    {
      var b, w, n := handles[i].large.b, handles[i].writeSize, |bytes|;
      ghost var bs := blocks;
      var data := blocks[b].data[..w] + bytes + blocks[b].data[w + n..];
      Filled(blocks[b].data, w, bytes);
      blocks := blocks[b := blocks[b].(data := data)];
      PrivateBytes(handles, bs, i, handles[i], b, data);
      SameHandle(handles, i);
      SameValue(Views(handles, bs), i);
    }

    /** New positions of handle i. */
    method Reposition(i: nat, writeSize: nat, readSize: nat)
      requires Valid() && i < |handles|
      requires HandleOk(handles[i].(writeSize := writeSize, readSize := readSize), blocks)
      modifies this`handles
      ensures Valid() && |handles| == |old(handles)|
      ensures Values() == old(Values())[i := View(old(handles)[i].(writeSize := writeSize, readSize := readSize), blocks)]
    {
      Repositioned(handles, blocks, i, handles[i].(writeSize := writeSize, readSize := readSize));
      handles := handles[i := handles[i].(writeSize := writeSize, readSize := readSize)];
    }

    /** Counts the first size bytes of the span as written, if there are so many. */
    method Write(i: nat, size: nat) returns (r: nat)
      requires Valid() && i < |handles|
      modifies this`handles
      ensures Valid() && |handles| == |old(handles)|
      ensures r == if size <= |old(Span(i))| then size else 0
      ensures Values() == old(Values())[i := Value(old(Values())[i].bytes + old(Span(i))[..r], old(Values())[i].read)]
    {
      Unchanged(handles, blocks, i);
      if size == 0 { return size; }
      if handles[i].writeSize + size > Capacity(handles[i], blocks) { return 0; }
      Longer(handles[i], blocks, size);
      Reposition(i, handles[i].writeSize + size, handles[i].readSize);
      return size;
    }

    /** Counts size more bytes as read, if so many are written. */
    method Read(i: nat, size: nat) returns (r: nat)
      requires Valid() && i < |handles|
      modifies this`handles
      ensures Valid() && |handles| == |old(handles)|
      ensures var v := old(Values())[i];
              && r == (if v.read + size <= |v.bytes| then size else 0)
              && Values() == old(Values())[i := v.(read := v.read + r)]
    {
      Unchanged(handles, blocks, i);
      if size == 0 { return size; }
      if handles[i].readSize + size > handles[i].writeSize { return 0; }
      Reposition(i, handles[i].writeSize, handles[i].readSize + size);
      return size;
    }

    /** Reserve, fill and write: the bytes are appended to handle i alone. */
    method Append(i: nat, bytes: seq<byte>)
      requires Valid() && i < |handles|
      modifies this
      ensures Valid() && |handles| == |old(handles)|
      ensures Values() == old(Values())[i := Value(old(Values())[i].bytes + bytes, old(Values())[i].read)]
    {
      SameValue(Values(), i);
      assert View(handles[i], blocks).bytes + [] == View(handles[i], blocks).bytes;
      if bytes == [] { return; }
      var grown := Reserve(i, |bytes|);
      Fill(i, bytes);
      assert Span(i)[..|bytes|] == bytes;
      var n := Write(i, |bytes|);
    }

    // ------------------------------------------------------------ any sequence

    method Step(op: Op)
      requires Valid()
      modifies this
      ensures Valid() && Values() == Apply(old(Values()), op)
    {
      match op {
        case New => var i := New();
        case Copy(j) => if j < |handles| { var i := Copy(j); }
        case Move(j) => if j < |handles| { var i := Move(j); }
        case Assign(i, j) => if i < |handles| && j < |handles| { Assign(i, j); }
        case MoveAssign(i, j) => if i < |handles| && j < |handles| { MoveAssign(i, j); }
        case _ => StepInPlace(op);
      }
    }

    method StepInPlace(op: Op)
      requires Valid() && (op.Clear? || op.Append? || op.Read? || op.Destroy?)
      modifies this
      ensures Valid() && Values() == Apply(old(Values()), op)
    {
      if op.i < |handles| {
        match op {
          case Clear(i) => Clear(i);
          case Append(i, bytes) => Append(i, bytes);
          case Read(i, size) => StepRead(i, size);
          case Destroy(i) => Destroy(i);
        }
      }
    }

    method StepRead(i: nat, size: nat)
      requires Valid() && i < |handles|
      modifies this
      ensures Valid() && Values() == Apply(old(Values()), Op.Read(i, size))
    {
      ReadApplies(Values(), i, size);
      var r := Read(i, size);
    }

    /** Runs any sequence of operations on any of the handles. Whatever is shared
        inside, the handles are worth what plain values would be. */
    method Perform(ops: seq<Op>)
      requires Valid()
      modifies this
      ensures Valid()
      ensures Values() == Meaning(old(Values()), ops)
    {
      var k := 0;
      while k < |ops|
        invariant 0 <= k <= |ops| && Valid()
        invariant Values() == Meaning(old(Values()), ops[..k])
      {
        assert ops[..k + 1][..k] == ops[..k];
        Step(ops[k]);
        k := k + 1;
      }
      assert ops[..|ops|] == ops;
    }
  }

  datatype Op =
    | New | Copy(j: nat) | Move(j: nat) | Assign(i: nat, j: nat) | MoveAssign(i: nat, j: nat)
    | Clear(i: nat) | Append(i: nat, bytes: seq<byte>) | Read(i: nat, size: nat) | Destroy(i: nat)

  /** The operations on plain values that share nothing. */
  function Apply(vs: seq<Value>, op: Op): seq<Value> {
    match op
    case New => vs + [Value([], 0)]
    case Copy(j) => if j < |vs| then vs + [Value(vs[j].bytes, 0)] else vs
    case Move(j) => if j < |vs| then vs[j := Value([], 0)] + [Value(vs[j].bytes, 0)] else vs
    case Assign(i, j) => if i < |vs| && j < |vs| && i != j then vs[i := Value(vs[j].bytes, 0)] else vs
    case MoveAssign(i, j) =>
      if i < |vs| && j < |vs| && i != j then vs[i := Value(vs[j].bytes, 0)][j := Value([], 0)] else vs
    case Clear(i) => if i < |vs| then vs[i := Value([], 0)] else vs
    case Append(i, bytes) => if i < |vs| then vs[i := Value(vs[i].bytes + bytes, vs[i].read)] else vs
    case Read(i, size) =>
      if i < |vs| && vs[i].read + size <= |vs[i].bytes| then vs[i := Value(vs[i].bytes, vs[i].read + size)] else vs
    case Destroy(i) => if i < |vs| then Without(vs, i) else vs
  }

  lemma ReadApplies(vs: seq<Value>, i: nat, size: nat)
    requires i < |vs|
    ensures var v := vs[i];
            Apply(vs, Op.Read(i, size)) == vs[i := v.(read := v.read + if v.read + size <= |v.bytes| then size else 0)]
  {
    SameValue(vs, i);
  }

  function Meaning(vs: seq<Value>, ops: seq<Op>): seq<Value> {
    if ops == [] then vs else Apply(Meaning(vs, ops[..|ops| - 1]), ops[|ops| - 1])
  }
}
