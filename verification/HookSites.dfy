/** What hooks do to the bytes of a program: a hooked function starts with a jump
    to its trampoline, which keeps the bytes that were there. */
module HookSites {
  import opened Bytes
  import opened CopyTables
  import opened Relocation
  import opened Layouts
  import opened Trampolines
  import opened Opcodes

  /** Code by its addresses. */
  type Code = map<int, byte>

  const MAX_ADDRESS: int := 0x1_0000_0000_0000_0000

  const READ_SIZE: nat := SIZE_OF_JMP + MAX_LENGTH

  predicate Mapped(code: Code, a: int, n: nat) { forall x | a <= x < a + n :: x in code }

  function Read(code: Code, a: int, n: nat): (r: seq<byte>)
    requires Mapped(code, a, n)
    ensures |r| == n && forall k | 0 <= k < n :: r[k] == code[a + k]
  {
    seq(n, k requires 0 <= k < n => code[a + k])
  }

  function Patch(code: Code, a: int, bytes: seq<byte>): (r: Code)
    ensures r.Keys == code.Keys
  {
    map x | x in code :: if a <= x < a + |bytes| then bytes[x - a] else code[x]
  }

  /** `xhook_skip_jmp`, without import tables: a short jump is followed, and a long
      one behind it. */
  function Skip(code: Code, p: int): int {
    if p in code && code[p] == 0xEB && p + 1 in code then
      var q := p + 2 + FromChar(code[p + 1]);
      if Mapped(code, q, 5) && q in code && code[q] == 0xE9 then q + 5 + FromLong(Read(code, q, 5)[1..]) else q
    else p
  }

  /** The addresses whose bytes decide where a pointer is followed to. */
  function SkipReads(code: Code, p: int): set<int> {
    if p in code && code[p] == 0xEB && p + 1 in code then
      var q := p + 2 + FromChar(code[p + 1]);
      {p, p + 1, q, q + 1, q + 2, q + 3, q + 4}
    else {p}
  }

  /** A change of other bytes does not matter to it. */
  lemma SameSkip(code: Code, code': Code, p: int)
    requires code'.Keys == code.Keys && forall x | x in SkipReads(code, p) && x in code :: code'[x] == code[x]
    ensures Skip(code', p) == Skip(code, p)
  {
    if p in code && code[p] == 0xEB && p + 1 in code {
      var q := p + 2 + FromChar(code[p + 1]);
      if Mapped(code, q, 5) {
        assert Mapped(code', q, 5);
        assert Read(code', q, 5) == Read(code, q, 5);
      } else {
        assert !Mapped(code', q, 5);
      }
    }
  }

  /** A pointer to anything but a short jump is where it leads. A short jump is
      followed, forwards or backwards, and then a near jump if there is one. */
  lemma SkipLeads(code: Code, p: int, q: int, r: int)
    requires Mapped(code, p, 2) && Mapped(code, q, 5)
    requires q == p + 2 + if code[p + 1] < 0x80 then code[p + 1] as int else code[p + 1] as int - 0x100
    requires r == q + 5 + code[q + 1] as int + 0x100 * code[q + 2] as int + 0x1_0000 * code[q + 3] as int
                  + 0x100_0000 * code[q + 4] as int - if code[q + 4] < 0x80 then 0 else 0x1_0000_0000
    ensures Skip(code, p) == if code[p] != 0xEB then p else if code[q] != 0xE9 then q else r
  {
    ByteHasSign(code[p + 1]);
    LongHasSign(code[q + 1], code[q + 2], code[q + 3], code[q + 4]);
    assert Read(code, q, 5)[1..] == [code[q + 1], code[q + 2], code[q + 3], code[q + 4]];
  }

  /** A pointer to a short jump is followed: with these bytes from 16 to 34, or back
      to 2. */
  lemma ShortJumpFollowed()
    ensures Skip(map[16 := 0xEB, 17 := 0x10], 16) == 34
    ensures Skip(map[16 := 0xEB, 17 := 0xF0], 16) == 2
  {
  }

  /** A place where n bytes at target are made room of, the first READ_SIZE bytes
      there being read at the time. */
  datatype Site = Site(ptr: int, target: int, n: nat, read: seq<byte>)

  /** `xhook_gen_jmp_immediate` and `xhook_gen_brk`. */
  function JumpTo(tramp: int, target: int, n: nat): (r: seq<byte>)
    requires n >= SIZE_OF_JMP
    ensures |r| == n
  {
    [0xE9] + Long(tramp + CODE_IN - (target + 5)) + seq(n - SIZE_OF_JMP, _ => 0xCC)
  }

  /** The jump over the first bytes of a function, byte by byte: to `rbCodeIn`,
      88 bytes into the trampoline, and breaks up to the next instruction. */
  lemma JumpBytes(t: int, target: int, n: nat)
    requires 0 <= target < MAX_ADDRESS && Lo(target) <= t <= Hi(target) && n >= SIZE_OF_JMP
    ensures var j := JumpTo(t, target, n);
            && |j| == n && j[0] == 0xE9 && (forall k | 5 <= k < n :: j[k] == 0xCC)
            && target + 5 + j[1] as int + 0x100 * j[2] as int + 0x1_0000 * j[3] as int + 0x100_0000 * j[4] as int
               - (if j[4] < 0x80 then 0 else 0x1_0000_0000) == t + 88
  {
    var j := JumpTo(t, target, n);
    JumpFits(target, t);
    LongRoundTrip(t + 88 - (target + 5));
    LongHasSign(j[1], j[2], j[3], j[4]);
    assert Long(t + 88 - (target + 5)) == [j[1], j[2], j[3], j[4]];
  }

  predicate In(x: int, s: Site) { s.target <= x < s.target + s.n }

  /** Two sites share neither a byte nor a pointer. */
  predicate Apart(a: Site, b: Site) {
    (a.target + a.n <= b.target || b.target + b.n <= a.target) && a.ptr != b.ptr
  }

  ghost predicate AllApart(sites: map<int, Site>) {
    forall t, u {:trigger Apart(sites[t], sites[u])} | t in sites && u in sites && t != u :: Apart(sites[t], sites[u])
  }

  ghost predicate AllLong(sites: map<int, Site>) { forall t | t in sites :: sites[t].n >= SIZE_OF_JMP }

  /** A byte is that of the jump of the hook it is in, and otherwise the program's. */
  ghost predicate ByteOk(x: int, b: byte, own: byte, sites: map<int, Site>, on: set<int>)
    requires on <= sites.Keys && AllLong(sites)
  {
    && (forall t | t in on && In(x, sites[t]) :: b == JumpTo(t, sites[t].target, sites[t].n)[x - sites[t].target])
    && ((forall t | t in on :: !In(x, sites[t])) ==> b == own)
  }

  /** The code is the program with a jump at each hook that is on. */
  ghost predicate CodeOk(code: Code, own: Code, sites: map<int, Site>, on: set<int>) {
    && on <= sites.Keys && AllLong(sites)
    && code.Keys == own.Keys
    && forall x {:trigger ByteOk(x, code[x], own[x], sites, on)} | x in code :: ByteOk(x, code[x], own[x], sites, on)
  }

  /** The bytes at a site that is not on are the program's. */
  lemma OwnBytes(code: Code, own: Code, sites: map<int, Site>, on: set<int>, s: Site)
    requires CodeOk(code, own, sites, on) && Mapped(code, s.target, s.n)
    requires forall t | t in on :: Apart(sites[t], s)
    ensures Read(code, s.target, s.n) == Read(own, s.target, s.n)
  {
    forall x | In(x, s) ensures code[x] == own[x] { assert ByteOk(x, code[x], own[x], sites, on); }
  }

  /** No other hook has a byte of site t. */
  lemma OnlyHere(sites: map<int, Site>, on: set<int>, t: int, x: int)
    requires AllApart(sites) && on <= sites.Keys && t in sites && In(x, sites[t])
    ensures forall u | u in on && u != t :: !In(x, sites[u])
  {
    forall u | u in on && u != t ensures !In(x, sites[u]) { assert Apart(sites[t], sites[u]); }
  }

  /** A byte outside of site t does not care whether that is on. */
  lemma ByteElsewhere(x: int, b: byte, own: byte, sites: map<int, Site>, on: set<int>, on': set<int>, t: int)
    requires on <= sites.Keys && on' <= sites.Keys && AllLong(sites) && ByteOk(x, b, own, sites, on)
    requires t in sites && !In(x, sites[t]) && (on' == on + {t} || on' == on - {t})
    ensures ByteOk(x, b, own, sites, on')
  {
    forall u | u in on ensures u == t || u in on' { }
  }

  lemma TurnOn(code: Code, own: Code, sites: map<int, Site>, on: set<int>, t: int)
    requires CodeOk(code, own, sites, on) && AllApart(sites) && t in sites && t !in on
    ensures CodeOk(Patch(code, sites[t].target, JumpTo(t, sites[t].target, sites[t].n)), own, sites, on + {t})
  {
    var s := sites[t];
    var jump := JumpTo(t, s.target, s.n);
    var code', on' := Patch(code, s.target, jump), on + {t};
    forall x | x in code' ensures ByteOk(x, code'[x], own[x], sites, on') {
      if In(x, s) {
        OnlyHere(sites, on', t, x);
      } else {
        assert ByteOk(x, code[x], own[x], sites, on);
        ByteElsewhere(x, code[x], own[x], sites, on, on', t);
      }
    }
  }

  /** Writing any bytes over the jump of a site makes them the program's there. */
  lemma TurnOff(code: Code, own: Code, sites: map<int, Site>, on: set<int>, t: int, bytes: seq<byte>)
    requires CodeOk(code, own, sites, on) && AllApart(sites) && t in sites && |bytes| == sites[t].n
    ensures CodeOk(Patch(code, sites[t].target, bytes), Patch(own, sites[t].target, bytes), sites, on - {t})
  {
    var s := sites[t];
    var code', own', on' := Patch(code, s.target, bytes), Patch(own, s.target, bytes), on - {t};
    forall x | x in code' ensures ByteOk(x, code'[x], own'[x], sites, on') {
      if In(x, s) {
        OnlyHere(sites, on', t, x);
      } else {
        assert ByteOk(x, code[x], own[x], sites, on);
        ByteElsewhere(x, code[x], own[x], sites, on, on', t);
      }
    }
  }

  /** Sites that are not on do not matter to the code. */
  lemma SameOn(code: Code, own: Code, sites: map<int, Site>, sites': map<int, Site>, on: set<int>)
    requires CodeOk(code, own, sites, on) && AllLong(sites') && on <= sites'.Keys
    requires forall t | t in on :: sites'[t] == sites[t]
    ensures CodeOk(code, own, sites', on)
  {
    forall x | x in code ensures ByteOk(x, code[x], own[x], sites', on) {
      assert ByteOk(x, code[x], own[x], sites, on);
    }
  }

  /** The code is determined by the hooks that are on: hooks put on and taken off
      in any number and order leave the bytes as they were. */
  lemma CodeDetermined(code: Code, code': Code, own: Code, sites: map<int, Site>, sites': map<int, Site>, on: set<int>)
    requires CodeOk(code, own, sites, on) && CodeOk(code', own, sites', on)
    requires forall t | t in on :: sites'[t] == sites[t]
    ensures code == code'
  {
    forall x | x in code ensures code[x] == code'[x] {
      assert ByteOk(x, code[x], own[x], sites, on) && ByteOk(x, code'[x], own[x], sites', on);
    }
  }

  /** With no hook on, every byte is the program's own. */
  lemma NoHookNoChange(code: Code, own: Code, sites: map<int, Site>)
    requires CodeOk(code, own, sites, {})
    ensures code == own
  {
    forall x | x in code ensures code[x] == own[x] { assert ByteOk(x, code[x], own[x], sites, {}); }
  }

  predicate Within(space: set<int>, a: int, n: nat) { forall x | a <= x < a + n :: x in space }

  /** The code moved for a site. */
  function Copy(t: int, s: Site, table: Table): seq<byte> { Moved(table, s.read, s.target, t, SIZE_OF_JMP).0 }

  /** What is known of a site and its trampoline, whatever the bytes of the program
      are now. */
  ghost predicate SiteOk(t: int, s: Site, space: set<int>, tramps: map<int, Trampoline>, remain: map<int, int>, table: Table) {
    && SIZE_OF_JMP <= s.n < READ_SIZE == |s.read| && s.n == Footprint(table, s.read)
    && Within(space, s.target, s.n)
    && 0 < s.target < MAX_ADDRESS && Lo(s.target) <= t <= Hi(s.target)
    && t in tramps && t in remain
    && remain[t] == s.target + s.n && remain[t] in space
    && IsImage(tramps[t].image, Copy(t, s, table), s.read[..s.n])
    && tramps[t].CbRestore() == s.n && tramps[t].Restore() == Restored(Copy(t, s, table), s.read[..s.n])
  }

  /** The bytes at a site are still those that were read there. */
  predicate ReadOk(s: Site, own: Code) {
    s.n <= |s.read| && Mapped(own, s.target, s.n) && s.read[..s.n] == Read(own, s.target, s.n)
  }

  ghost predicate ReadsOk(sites: map<int, Site>, own: Code, ts: set<int>) {
    forall t {:trigger ReadOk(sites[t], own)} | t in ts && t in sites :: ReadOk(sites[t], own)
  }

  /** Bytes written elsewhere do not change them. */
  lemma ReadElsewhere(s: Site, u: Site, own: Code, bytes: seq<byte>)
    requires ReadOk(s, own) && Apart(s, u) && |bytes| == u.n
    ensures ReadOk(s, Patch(own, u.target, bytes))
  {
    var own' := Patch(own, u.target, bytes);
    assert Mapped(own', s.target, s.n);
    assert Read(own', s.target, s.n) == Read(own, s.target, s.n);
  }

  lemma ReadsElsewhere(sites: map<int, Site>, own: Code, ts: set<int>, t: int, bytes: seq<byte>)
    requires ReadsOk(sites, own, ts) && AllApart(sites) && t in sites && |bytes| == sites[t].n
    ensures ReadsOk(sites, Patch(own, sites[t].target, bytes), ts - {t})
  {
    forall u | u in ts - {t} && u in sites ensures ReadOk(sites[u], Patch(own, sites[t].target, bytes)) {
      assert Apart(sites[u], sites[t]) && ReadOk(sites[u], own);
      ReadElsewhere(sites[u], sites[t], own, bytes);
    }
  }

  // ------------------------------------------------------------- what a hook does

  lemma JumpWritten(code: Code, own: Code, sites: map<int, Site>, on: set<int>, t: int)
    requires CodeOk(code, own, sites, on) && t in on && Mapped(own, sites[t].target, sites[t].n)
    ensures Mapped(code, sites[t].target, sites[t].n)
    ensures Read(code, sites[t].target, sites[t].n) == JumpTo(t, sites[t].target, sites[t].n)
  {
    var s := sites[t];
    var jump := JumpTo(t, s.target, s.n);
    forall x | In(x, s) ensures x in code && code[x] == jump[x - s.target] {
      assert x in own;
      assert ByteOk(x, code[x], own[x], sites, on);
    }
  }

  /** The jump over a function in reach leads to the jump to its detour. */
  lemma JumpLeads(dec: Decoder, t: int, target: int, n: nat)
    requires n >= SIZE_OF_JMP && 0 < target < MAX_ADDRESS && Lo(target) <= t <= Hi(target)
    ensures EffectOf(dec, JumpTo(t, target, n)[..SIZE_OF_JMP], target) == Goes(Jump, t + CODE_IN)
  {
    var jump := JumpTo(t, target, n)[..SIZE_OF_JMP];
    JumpFits(target, t);
    LongRoundTrip(t + CODE_IN - (target + 5));
    assert jump[1..5] == Long(t + CODE_IN - (target + 5));
  }

  /** The bytes read at a site are the program's. */
  lemma ReadAt(s: Site, own: Code, x: int)
    requires ReadOk(s, own) && In(x, s)
    ensures x in own && own[x] == s.read[x - s.target]
  {
    assert own[x] == Read(own, s.target, s.n)[x - s.target];
  }

  lemma ReadFirst(s: Site, own: Code, used: nat)
    requires ReadOk(s, own) && used <= s.n
    ensures Mapped(own, s.target, used) && Read(own, s.target, used) == s.read[..used]
  {
    forall x | s.target <= x < s.target + used ensures x in own && own[x] == s.read[x - s.target] { ReadAt(s, own, x); }
  }

  lemma FillerRead(s: Site, own: Code, used: nat)
    requires ReadOk(s, own) && used <= |s.read| && s.n == used + Filler(s.read[used..], SIZE_OF_JMP - used)
    ensures forall x | s.target + used <= x < s.target + s.n :: x in own && own[x] == 0x90
  {
    forall x | s.target + used <= x < s.target + s.n ensures x in own && own[x] == 0x90 {
      ReadAt(s, own, x);
      assert s.read[x - s.target] == s.read[used..][x - s.target - used];
    }
  }

  /** What is moved from the bytes read at a site does what the program's own bytes
      there do, if and only if every branch reaches. */
  lemma MovedActs(t: int, s: Site, own: Code, table: Table)
    requires Lawful(table) && s.n == Footprint(table, s.read) && ReadOk(s, own)
    ensures var (bytes, used) := Moved(table, s.read, s.target, t, SIZE_OF_JMP);
            && used <= s.n && Mapped(own, s.target, used)
            && (forall x | s.target + used <= x < s.target + s.n :: x in own && own[x] == 0x90)
            && (SameEffects(table, bytes, t, Read(own, s.target, used), s.target)
                <==> OutOfReach(table, s.read, s.target, t, SIZE_OF_JMP) == 0)
  {
    ConsumedIsMoved(table, s.read, s.target, t, SIZE_OF_JMP);
    MovedEffects(table, s.read, s.target, t, SIZE_OF_JMP);
    var used := Consumed(table, s.read, SIZE_OF_JMP);
    FillerRead(s, own, used);
    ReadFirst(s, own, used);
  }

  // ------------------------------------------------------------------- operations

  datatype Op = Op(isRemove: bool, ptr: int, target: int, tramp: int)

  /** The trampolines of the operations that add a hook, or of those that remove one. */
  function Picked(ops: seq<Op>, removals: bool): set<int> { set o | o in ops && o.isRemove == removals :: o.tramp }

  function Added(ops: seq<Op>): set<int> { Picked(ops, false) }

  function Gone(ops: seq<Op>): set<int> { Picked(ops, true) }

  /** The trampolines that two of them are about. */
  function Again(ops: seq<Op>, removals: bool): set<int> {
    if ops == [] then {}
    else
      var front, last := ops[..|ops| - 1], ops[|ops| - 1];
      Again(front, removals) + if last.isRemove == removals && last.tramp in Picked(front, removals) then {last.tramp} else {}
  }

  lemma {:induction false} AgainIsTwice(ops: seq<Op>, removals: bool, t: int)
    ensures t in Again(ops, removals)
            <==> exists j, k :: 0 <= j < k < |ops| && ops[j].isRemove == ops[k].isRemove == removals && ops[j].tramp == ops[k].tramp == t
  {
    if ops != [] {
      var n := |ops| - 1;
      var front := ops[..n];
      AgainIsTwice(front, removals, t);
      assert forall j | 0 <= j < n :: front[j] == ops[j];
      PickedAt(ops, n, removals, t);
    }
  }

  lemma PickedAt(ops: seq<Op>, n: nat, removals: bool, t: int)
    requires n <= |ops|
    ensures t in Picked(ops[..n], removals) <==> exists j :: 0 <= j < n && ops[j].isRemove == removals && ops[j].tramp == t
  {
    var front := ops[..n];
    if t in Picked(front, removals) {
      var o :| o in front && o.isRemove == removals && o.tramp == t;
      var j :| 0 <= j < n && front[j] == o;
      assert ops[j] == o;
    }
    forall j | 0 <= j < n ensures ops[j] in front { assert front[j] == ops[j]; }
  }

  predicate Clash(o: Op, p: Op) { o.tramp == p.tramp || o.ptr == p.ptr }

  /** Operations about one trampoline or one pointer are the same, and only those
      that remove a hook can be there twice. */
  ghost predicate Coherent(ops: seq<Op>) {
    && (forall o, p {:trigger Clash(o, p)} | o in ops && p in ops && Clash(o, p) :: o == p)
    && (forall j, k | 0 <= j < k < |ops| && !ops[j].isRemove :: ops[j] != ops[k])
  }

  lemma AddedOnce(ops: seq<Op>)
    requires Coherent(ops)
    ensures Again(ops, false) == {}
  {
    forall t ensures t !in Again(ops, false) {
      AgainIsTwice(ops, false, t);
      forall j, k | 0 <= j < k < |ops| && !ops[j].isRemove ensures ops[j].tramp != ops[k].tramp {
        assert ops[j] in ops && ops[k] in ops && ops[j] != ops[k] && !Clash(ops[j], ops[k]);
      }
    }
  }

  /** The pointers after a commit of the operations. */
  function PointersAfter(ptrs: map<int, int>, ops: seq<Op>): map<int, int>
    decreases |ops|
  {
    if ops == [] then ptrs
    else PointersAfter(ptrs[ops[0].ptr := if ops[0].isRemove then ops[0].target else ops[0].tramp], ops[1..])
  }

  ghost predicate OnePerPointer(ops: seq<Op>) { forall o, p | o in ops && p in ops && o.ptr == p.ptr :: o == p }

  lemma CoherentPointers(ops: seq<Op>)
    requires Coherent(ops)
    ensures OnePerPointer(ops)
  {
    forall o, p | o in ops && p in ops && o.ptr == p.ptr ensures o == p { assert Clash(o, p); }
  }

  /** Each pointer of a committed operation has its own new value, others the old. */
  lemma {:induction false} PointerAfter(ptrs: map<int, int>, ops: seq<Op>)
    requires OnePerPointer(ops)
    ensures PointersAfter(ptrs, ops).Keys == ptrs.Keys + (set o | o in ops :: o.ptr)
    ensures forall o | o in ops :: PointersAfter(ptrs, ops)[o.ptr] == if o.isRemove then o.target else o.tramp
    ensures forall p | p in ptrs && (forall o | o in ops :: o.ptr != p) :: PointersAfter(ptrs, ops)[p] == ptrs[p]
    decreases |ops|
  {
    if ops != [] {
      var first, rest := ops[0], ops[1..];
      assert ops == [first] + rest;
      PointerAfter(ptrs[first.ptr := if first.isRemove then first.target else first.tramp], rest);
    }
  }

  /** What an operation writes over the code at its target. */
  function NewBytes(o: Op, tramps: map<int, Trampoline>): seq<byte> {
    if o.tramp !in tramps then []
    else
      var restore := tramps[o.tramp].Restore();
      if o.isRemove || |restore| < SIZE_OF_JMP then restore else JumpTo(o.tramp, o.target, |restore|)
  }

  /** The code after a commit of the operations. */
  function CodeAfter(code: Code, ops: seq<Op>, tramps: map<int, Trampoline>): Code
    decreases |ops|
  {
    if ops == [] then code else CodeAfter(Patch(code, ops[0].target, NewBytes(ops[0], tramps)), ops[1..], tramps)
  }

  /** Bytes at no target are as before. */
  lemma {:induction false} CodeElsewhereAfter(code: Code, ops: seq<Op>, tramps: map<int, Trampoline>, x: int)
    requires x in code && forall o | o in ops :: !(o.target <= x < o.target + |NewBytes(o, tramps)|)
    ensures CodeAfter(code, ops, tramps).Keys == code.Keys && CodeAfter(code, ops, tramps)[x] == code[x]
    decreases |ops|
  {
    if ops != [] {
      assert ops == [ops[0]] + ops[1..];
      CodeElsewhereAfter(Patch(code, ops[0].target, NewBytes(ops[0], tramps)), ops[1..], tramps, x);
    }
  }

  lemma {:induction false} CodeAfterKeys(code: Code, ops: seq<Op>, tramps: map<int, Trampoline>)
    ensures CodeAfter(code, ops, tramps).Keys == code.Keys
    decreases |ops|
  {
    if ops != [] { CodeAfterKeys(Patch(code, ops[0].target, NewBytes(ops[0], tramps)), ops[1..], tramps); }
  }

  // ------------------------------------------------ what removals make of the program

  /** The program without any hook, after a commit of the operations: a removal
      makes the bytes that it writes the program's. */
  function OwnAfter(own: Code, ops: seq<Op>, tramps: map<int, Trampoline>): (r: Code)
    ensures r.Keys == own.Keys
    decreases |ops|
  {
    if ops == [] then own
    else OwnAfter(if ops[0].isRemove then Patch(own, ops[0].target, NewBytes(ops[0], tramps)) else own, ops[1..], tramps)
  }

  /** Additions leave it as it is. */
  lemma {:induction false} OwnAdded(own: Code, ops: seq<Op>, tramps: map<int, Trampoline>)
    requires forall o | o in ops :: !o.isRemove
    ensures OwnAfter(own, ops, tramps) == own
    decreases |ops|
  {
    if ops != [] {
      assert ops[0] in ops;
      OwnAdded(own, ops[1..], tramps);
    }
  }

  /** An operation writes over x. */
  predicate Covers(o: Op, x: int, tramps: map<int, Trampoline>) { o.target <= x < o.target + |NewBytes(o, tramps)| }

  lemma {:induction false} OwnElsewhere(own: Code, ops: seq<Op>, tramps: map<int, Trampoline>, x: int)
    requires x in own && forall o | o in ops :: !Covers(o, x, tramps)
    ensures OwnAfter(own, ops, tramps)[x] == own[x]
    decreases |ops|
  {
    if ops != [] {
      assert ops[0] in ops && !Covers(ops[0], x, tramps);
      OwnElsewhere(if ops[0].isRemove then Patch(own, ops[0].target, NewBytes(ops[0], tramps)) else own, ops[1..], tramps, x);
    }
  }

  lemma {:induction false} OwnCovered(own: Code, ops: seq<Op>, tramps: map<int, Trampoline>, o: Op, x: int)
    requires x in own && o in ops && o.isRemove && Covers(o, x, tramps)
    requires forall p | p in ops && Covers(p, x, tramps) :: p == o
    ensures OwnAfter(own, ops, tramps)[x] == NewBytes(o, tramps)[x - o.target]
    decreases |ops|
  {
    var rest := ops[1..];
    var next := if ops[0].isRemove then Patch(own, ops[0].target, NewBytes(ops[0], tramps)) else own;
    if o in rest {
      OwnCovered(next, rest, tramps, o, x);
    } else {
      assert ops == [ops[0]] + rest;
      OwnElsewhere(next, rest, tramps, x);
    }
  }

  /** The targets of operations whose functions lose their first bytes. */
  function Lost(ops: seq<Op>, code: Code, dec: Decoder): set<int> {
    set o | o in ops && Mapped(code, o.target, READ_SIZE) && Spoils(Read(code, o.target, READ_SIZE), dec) :: o.target
  }

  function Zeroed(code: Code, xs: set<int>): Code { map x | x in code :: if x in xs then 0 else code[x] }

  /** The code after a hook at target has been put on and taken off. */
  function Unhooked(code: Code, target: int, dec: Decoder): Code
    requires Mapped(code, target, READ_SIZE)
  {
    if Spoils(Read(code, target, READ_SIZE), dec) then code[target := 0] else code
  }

  lemma UnhookedIsChange(code: Code, target: int, dec: Decoder)
    requires Mapped(code, target, READ_SIZE)
    ensures Unhooked(code, target, dec) == code <==> !Spoils(Read(code, target, READ_SIZE), dec)
  {
    assert Read(code, target, READ_SIZE)[0] == code[target];
  }

  /** A function that loses its first byte did not start with zero. */
  lemma LostIsChange(ops: seq<Op>, code: Code, dec: Decoder)
    ensures Zeroed(code, Lost(ops, code, dec)) == code <==> Lost(ops, code, dec) == {}
  {
    var lost := Lost(ops, code, dec);
    forall x | x in lost ensures x in code && code[x] != 0 {
      var o :| o in ops && o.target == x && Mapped(code, o.target, READ_SIZE) && Spoils(Read(code, o.target, READ_SIZE), dec);
      assert Read(code, o.target, READ_SIZE)[0] == code[x];
    }
    if lost != {} {
      var x :| x in lost;
      assert Zeroed(code, lost)[x] == 0 != code[x];
    } else {
      assert Zeroed(code, lost) == code;
    }
  }

  lemma RestoredAt(moved: seq<byte>, kept: seq<byte>, k: nat)
    requires k < |kept|
    ensures Restored(moved, kept)[k] == if k == 0 && |moved| + SIZE_OF_JMP_INDIRECT > RB_RESTORE then 0 else kept[k]
  {
  }

  /** What a removal writes, byte by byte. */
  lemma Written(t: int, s: Site, own: Code, space: set<int>, tramps: map<int, Trampoline>, remain: map<int, int>, table: Table,
                dec: Decoder, x: int)
    requires IsX64(table, dec) && SiteOk(t, s, space, tramps, remain, table) && ReadOk(s, own) && In(x, s)
    ensures var restore := tramps[t].Restore();
            |restore| == s.n && restore[x - s.target] == if x == s.target && Spoils(s.read, dec) then 0 else own[x]
  {
    JumpBackSpoils(table, dec, s.read, s.target, t);
    ReadAt(s, own, x);
    RestoredAt(Copy(t, s, table), s.read[..s.n], x - s.target);
  }
}
