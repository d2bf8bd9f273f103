/** Transactions that put hooks on functions and take them off. */
module Hooks {
  import opened Bytes
  import opened CopyTables
  import opened Relocation
  import opened Layouts
  import opened Opcodes
  import opened Trampolines
  import opened HookSites

  datatype Error = NoError | InvalidOperation | InvalidHandle | NotEnoughMemory | InvalidBlock | System

  /** No byte of the program is in a region of trampolines. */
  ghost predicate CodeElsewhere(space: set<int>, regions: seq<int>) {
    forall x | x in space :: 0 < x < MAX_ADDRESS && RegionOf(x) !in regions
  }

  ghost predicate SitesOk(sites: map<int, Site>, space: set<int>, tramps: map<int, Trampoline>, remain: map<int, int>, table: Table) {
    forall t {:trigger SiteOk(t, sites[t], space, tramps, remain, table)} | t in sites ::
      SiteOk(t, sites[t], space, tramps, remain, table)
  }

  /** Each hook that is on has its pointer lead to its trampoline. */
  ghost predicate PointersOk(sites: map<int, Site>, on: set<int>, ptrs: map<int, int>) {
    forall t | t in on && t in sites :: sites[t].ptr in ptrs && ptrs[sites[t].ptr] == t
  }

  /** An operation is about a site that there is. */
  predicate OpSite(o: Op, sites: map<int, Site>) {
    o.tramp in sites && sites[o.tramp].ptr == o.ptr && sites[o.tramp].target == o.target
  }

  /** One that is on if the operation removes it, and off if it adds it. */
  predicate OpOk(o: Op, sites: map<int, Site>, on: set<int>) {
    OpSite(o, sites) && (o.isRemove <==> o.tramp in on)
  }

  ghost predicate OpsOk(ops: seq<Op>, sites: map<int, Site>, on: set<int>) {
    Coherent(ops) && forall o | o in ops :: OpOk(o, sites, on)
  }

  /** Each function to be hooked is where its pointer leads to. */
  ghost predicate Followed(ops: seq<Op>, code: Code, ptrs: map<int, int>) {
    forall o | o in ops && !o.isRemove :: o.ptr in ptrs && o.target == Skip(code, ptrs[o.ptr])
  }

  /** And its bytes are those that were read there. */
  ghost predicate AsRead(ops: seq<Op>, sites: map<int, Site>, code: Code) {
    forall o | o in ops && !o.isRemove ::
      && o.tramp in sites && Mapped(code, o.target, READ_SIZE)
      && sites[o.tramp].read == Read(code, o.target, READ_SIZE)
  }

  /** `rbCodeIn` as a commit leaves it: a jump through `pbXHook`, and breaks. */
  function Entry(): seq<byte> { JumpThrough(CODE_IN, PB_XHOOK) + [BREAK, BREAK] }

  /** Fourteen bytes back from its end is `pbXHook`. */
  lemma EntryBytes()
    ensures Entry() == [0xFF, 0x25, 0xF2, 0xFF, 0xFF, 0xFF, 0xCC, 0xCC]
  {
    LongBehind(-14);
  }

  ghost predicate EntriesOk(on: set<int>, codeIn: map<int, seq<byte>>) {
    forall t | t in on :: t in codeIn && codeIn[t] == Entry()
  }

  /** A commit leaves the regions in order if and only if this holds: a trampoline
      that is given back twice is in a region that is released with it. */
  ghost predicate KeepsPool(ops: seq<Op>, on: set<int>, retain: bool) {
    forall t | t in Again(ops, true) :: !retain && !InUse(RegionOf(t), (on + Added(ops)) - Gone(ops))
  }

  class Hooks {
    const pool: Pool
    const dec: Decoder
    ghost const table: Table
    var code: Code
    var ptrs: map<int, int>
    var tramps: map<int, Trampoline>
    /** The `rbCodeIn` of the trampolines. */
    var codeIn: map<int, seq<byte>>
    var owner: int
    var error: Error
    var ops: seq<Op>
    var retain: bool
    var ignore: bool
    /** The bytes that the program has without any hook, and where it has bytes. */
    ghost var own: Code
    ghost const space: set<int>
    ghost var sites: map<int, Site>
    /** The trampolines of the hooks that are on. */
    ghost var on: set<int>

    /** All that holds between hooks and code, when the trampolines in extra have
        been taken but are not in use. */
    ghost predicate Base(extra: set<int>)
      reads this, pool
    {
      && pool.Loose() && extra !! sites.Keys && pool.live == sites.Keys + extra
      && CodeElsewhere(space, pool.regions) && own.Keys == space
      && CodeOk(code, own, sites, on) && AllApart(sites) && ReadsOk(sites, own, on) && EntriesOk(on, codeIn)
      && SitesOk(sites, space, tramps, pool.remain, table) && PointersOk(sites, on, ptrs)
    }

    ghost predicate Valid()
      reads this, pool
    {
      && Base({}) && pool.Valid() && Pending()
      && (owner == 0 ==> ops == [])
    }

    constructor (code: Code, ptrs: map<int, int>, dec: Decoder, ghost table: Table)
      requires forall x | x in code :: 0 < x < MAX_ADDRESS
      ensures Valid() && fresh(pool) && this.code == own == code && this.ptrs == ptrs && on == {} && owner == 0
    {
      pool := new Pool();
      this.dec, this.table, this.code, this.own, this.ptrs, space := dec, table, code, code, ptrs, code.Keys;
      tramps, codeIn, owner, error, ops, retain, ignore := map[], map[], 0, NoError, [], false, false;
      sites, on := map[], {};
    }

    /** What holds of the pending operations. */
    ghost predicate Pending()
      reads this
    {
      && OpsOk(ops, sites, on) && sites.Keys == on + Added(ops)
      && Followed(ops, code, ptrs) && AsRead(ops, sites, code) && ReadsOk(sites, own, Added(ops))
    }

    method Begin(tid: int) returns (e: Error)
      requires Valid() && tid != 0
      modifies this`owner, this`error, this`ops
      ensures Valid()
      ensures e == if old(owner) == 0 then NoError else InvalidOperation
      ensures e == NoError ==> owner == tid && error == NoError && ops == []
      ensures e != NoError ==> owner == old(owner) && error == old(error) && ops == old(ops)
    {
      if owner != 0 { return InvalidOperation; }
      owner := tid;
      ops := [];
      error := NoError;
      return NoError;
    }

    // --------------------------------------------------------------------- attach

    /** The function at target can be read, and neither the bytes that a jump would
        take there nor the pointer belong to another hook. */
    ghost predicate Clear(ptr: int, target: int)
      reads this
    {
      Mapped(code, target, READ_SIZE) &&
      var read := Read(code, target, READ_SIZE);
      var s := Site(ptr, target, Footprint(table, read), read);
      forall t | t in sites :: Apart(sites[t], s)
    }

    /** Memory found by the system for a new region: nothing is there. */
    ghost predicate Unused(found: int)
      reads this, pool
    {
      && 0 < found < USER_SPACE && found % REGION_SIZE == 0 && found !in pool.regions
      && forall x | x in space :: RegionOf(x) != found
    }

    /** Whether an attach gets as far as to look for a trampoline. */
    ghost predicate Proceeds(tid: int, ptr: int, hook: int)
      requires ptr != 0 ==> ptr in ptrs
      reads this
    {
      owner == tid && error == NoError && ptr != 0 && ptrs[ptr] != 0 && Skip(code, hook) != Skip(code, ptrs[ptr])
    }

    /** Prepares a hook. The program and its pointers do not change yet. */
    method Attach(tid: int, ptr: int, hook: int, found: int, canWrite: bool) returns (e: Error, ghost t: int)
      requires IsX64(table, dec)
      requires Valid() && tid != 0 && (ptr != 0 ==> ptr in ptrs) && (found == 0 || Unused(found))
      requires Proceeds(tid, ptr, hook) ==> Clear(ptr, Skip(code, ptrs[ptr]))
      modifies this`error, this`ops, this`sites, this`tramps, pool
      ensures Valid() && forall u | u in old(sites) :: u in sites && sites[u] == old(sites)[u]
      ensures old(Proceeds(tid, ptr, hook)) ==>
                var target := Skip(code, ptrs[ptr]);
                && e == Outcome(target, old(pool.NoneInReach(target, found)), canWrite)
                && (e == NoError ==> AttachedAs(t, ptr, target, Skip(code, hook), old(ops), old(sites)))
                && pool.regions == old(pool.RegionsFor(target, found))
                && error == if e == InvalidBlock && ignore then old(error) else e
      ensures !old(Proceeds(tid, ptr, hook)) ==>
                && e == (if owner != tid then InvalidOperation
                         else if old(error) != NoError then old(error)
                         else if ptr == 0 || ptrs[ptr] == 0 then InvalidHandle
                         else NoError)
                && error == (if owner == tid && old(error) == NoError && ptr != 0 && e == InvalidHandle then e else old(error))
      ensures e != NoError || !old(Proceeds(tid, ptr, hook)) ==>
                ops == old(ops) && sites == old(sites) && pool.live == old(pool.live)
      ensures !old(Proceeds(tid, ptr, hook)) ==> pool.regions == old(pool.regions)
    {
      t := 0;
      if owner != tid { return InvalidOperation, 0; }
      if error != NoError { return error, 0; }
      if ptr == 0 { return InvalidHandle, 0; }
      if ptrs[ptr] == 0 {
        error := InvalidHandle;
        return error, 0;
      }
      var target, xhook := Skip(code, ptrs[ptr]), Skip(code, hook);
      if xhook == target { return NoError, 0; }
      e, t := AttachTo(ptr, target, xhook, found, canWrite);
    }

    /** How an attach ends, by whether there is no trampoline in reach. */
    ghost function Outcome(target: int, noRoom: bool, canWrite: bool): Error
      requires Mapped(code, target, READ_SIZE)
      reads this
    {
      if noRoom then NotEnoughMemory
      else if Footprint(table, Read(code, target, READ_SIZE)) < SIZE_OF_JMP then InvalidBlock
      else if !canWrite then System
      else NoError
    }

    /** First there must be a trampoline in reach, then enough room: there is too little
        if and only if the function ends before five bytes and some byte up to there,
        behind it, is no filler. Last the bytes must be ones that can be written. */
    lemma AttachEnds(target: int, places: seq<nat>, noRoom: bool, canWrite: bool)
      requires IsX64(table, dec) && Mapped(code, target, READ_SIZE)
      requires TakenTo(dec, Read(code, target, READ_SIZE), places) && places[0] == 0
      ensures Outcome(target, noRoom, canWrite)
           == if noRoom then NotEnoughMemory
              else if exists x :: target + places[|places| - 1] <= x < target + 5 && code[x] != 0x90 then InvalidBlock
              else if canWrite then NoError else System
    {
      var read := Read(code, target, READ_SIZE);
      var n, f := places[|places| - 1], Footprint(table, read);
      FootprintOf(table, dec, read, places);
      if f < 5 {
        assert code[target + f] != 0x90;
      } else {
        forall x | target + n <= x < target + 5 ensures code[x] == 0x90 { assert code[x] == read[x - target]; }
      }
    }

    /** An attach whose arguments are in order. */
    method AttachTo(ptr: int, target: int, xhook: int, found: int, canWrite: bool) returns (e: Error, ghost t: int)
      requires IsX64(table, dec)
      requires Valid() && owner != 0 && error == NoError && (found == 0 || Unused(found)) && Clear(ptr, target)
      requires ptr in ptrs && target == Skip(code, ptrs[ptr])
      modifies this`error, this`ops, this`sites, this`tramps, pool
      ensures Valid() && forall u | u in old(sites) :: u in sites && sites[u] == old(sites)[u]
      ensures e == Outcome(target, old(pool.NoneInReach(target, found)), canWrite)
      ensures error == if e == InvalidBlock && ignore then old(error) else e
      ensures e == NoError ==> AttachedAs(t, ptr, target, xhook, old(ops), old(sites))
      ensures e != NoError ==> ops == old(ops) && sites == old(sites)
      ensures pool.regions == old(pool.RegionsFor(target, found))
    {
      var tramp := Take(target, found);
      t := tramp;
      if tramp == 0 {
        error := NotEnoughMemory;
        e := error;
      } else {
        e := Prepare(tramp, ptr, target, xhook, canWrite);
      }
    }

    /** One more operation: to add a hook with trampoline t, that was not in use. */
    ghost predicate AttachedAs(t: int, ptr: int, target: int, xhook: int, was: seq<Op>, sites0: map<int, Site>)
      reads this, pool
    {
      && ops == [Op(false, ptr, target, t)] + was
      && t !in sites0 && pool.live == sites.Keys && Lo(target) <= t <= Hi(target)
      && t in tramps && tramps[t].xhook == xhook
      && Mapped(code, target, READ_SIZE)
      && var read := Read(code, target, READ_SIZE);
         sites == sites0[t := Site(ptr, target, Footprint(table, read), read)]
    }

    method Take(target: int, found: int) returns (t: int)
      requires Base({}) && pool.Valid() && (found == 0 || Unused(found))
      modifies pool
      ensures pool.Valid()
      ensures t == 0 ==> Base({}) && pool.live == old(pool.live)
      ensures t != 0 ==> t !in sites && Base({t}) && Lo(target) <= t <= Hi(target)
      ensures t == 0 <==> old(pool.NoneInReach(target, found))
      ensures pool.regions == old(pool.RegionsFor(target, found))
    {
      assert found != 0 ==> pool.Available(found) by {
        if found != 0 { RemainsElsewhere(sites, space, tramps, pool.remain, table, found); }
      }
      ghost var was := pool.remain;
      t := pool.Alloc(target, found);
      SitesKept(sites, space, tramps, was, pool.remain, table);
    }

    /** Copies the code into the trampoline t and notes the operation; or gives the
        trampoline back. */
    method Prepare(t: int, ptr: int, target: int, xhook: int, canWrite: bool) returns (e: Error)
      requires IsX64(table, dec)
      requires Base({t}) && pool.Valid() && t !in sites && Pending() && owner != 0
      requires error == NoError && Clear(ptr, target) && Lo(target) <= t <= Hi(target)
      requires ptr in ptrs && target == Skip(code, ptrs[ptr])
      modifies this`error, this`ops, this`sites, this`tramps, pool
      ensures Valid() && forall u | u in old(sites) :: u in sites && sites[u] == old(sites)[u]
      ensures e == Outcome(target, false, canWrite) && error == if e == InvalidBlock && ignore then old(error) else e
      ensures e == NoError ==> AttachedAs(t, ptr, target, xhook, old(ops), old(sites))
      ensures e != NoError ==> ops == old(ops) && sites == old(sites)
      ensures pool.regions == old(pool.regions)
    {
      var read := Read(code, target, READ_SIZE);
      var image, cbTarget := MakeImage(read, table, dec, target, t);
      if cbTarget < SIZE_OF_JMP {
        e := GiveUp(t, InvalidBlock, ignore);
      } else if !canWrite {
        e := GiveUp(t, System, false);
      } else {
        e := Note(t, ptr, target, xhook, image, cbTarget, read);
      }
    }

    /** The end of an attach that failed. */
    method GiveUp(t: int, why: Error, quiet: bool) returns (e: Error)
      requires Base({t}) && pool.Valid() && why != NoError
      modifies this`error, pool
      ensures Base({}) && pool.Valid() && e == why && error == if quiet then old(error) else why
      ensures pool.regions == old(pool.regions)
    {
      if !quiet { error := why; }
      ghost var was := pool.remain;
      pool.LiveIndex(t);
      pool.FreeTrampoline(t);
      SitesKept(sites, space, tramps, was, pool.remain, table);
      return why;
    }

    /** The end of an attach that succeeded. */
    method Note(t: int, ptr: int, target: int, xhook: int, image: seq<byte>, cbTarget: nat, read: seq<byte>) returns (e: Error)
      requires Lawful(table)
      requires Base({t}) && pool.Valid() && t !in sites && Pending() && owner != 0
      requires Clear(ptr, target) && read == Read(code, target, READ_SIZE) && cbTarget == Footprint(table, read) >= SIZE_OF_JMP
      requires cbTarget < READ_SIZE && IsImage(image, Moved(table, read, target, t, SIZE_OF_JMP).0, read[..cbTarget])
      requires Lo(target) <= t <= Hi(target) && ptr in ptrs && target == Skip(code, ptrs[ptr])
      modifies this`ops, this`sites, this`tramps, pool
      ensures Valid() && e == NoError && forall u | u in old(sites) :: u in sites && sites[u] == old(sites)[u]
      ensures AttachedAs(t, ptr, target, xhook, old(ops), old(sites)) && pool.regions == old(pool.regions)
    {
      var s, o := Site(ptr, target, cbTarget, read), Op(false, ptr, target, t);
      var tramp := Trampoline(image, xhook);
      NewSite(t, s, tramp);
      AddSite(code, own, space, sites, on, tramps, pool.remain, table, t, s, tramp, ptrs, Added(ops));
      AddOp(ops, sites, on, o, s);
      Store(t, s, tramp, o);
      return NoError;
    }

    /** A site of code that is clear, and what its trampoline is made to hold. */
    lemma NewSite(t: int, s: Site, tramp: Trampoline)
      requires Lawful(table)
      requires Base({t}) && Clear(s.ptr, s.target) && s.read == Read(code, s.target, READ_SIZE)
      requires Lo(s.target) <= t <= Hi(s.target)
      requires SIZE_OF_JMP <= s.n == Footprint(table, s.read) < READ_SIZE
      requires IsImage(tramp.image, Copy(t, s, table), s.read[..s.n])
      ensures SiteOk(t, s, space, tramps[t := tramp], pool.remain[t := s.target + s.n], table) && ReadOk(s, own)
      ensures Outside(s.target + s.n, pool.regions)
    {
      assert s.target in code;
      FreshSite(code, own, space, sites, on, tramps, pool.remain, table, t, s, tramp);
    }

    method Store(t: int, s: Site, tramp: Trampoline, o: Op)
      requires Base({t}) && pool.Valid() && owner != 0 && o.tramp == t && Outside(s.target + s.n, pool.regions)
      requires CodeOk(code, own, sites[t := s], on) && AllApart(sites[t := s]) && PointersOk(sites[t := s], on, ptrs)
      requires SitesOk(sites[t := s], space, tramps[t := tramp], pool.remain[t := s.target + s.n], table)
      requires ReadsOk(sites[t := s], own, on) && ReadsOk(sites[t := s], own, Added([o] + ops))
      requires OpsOk([o] + ops, sites[t := s], on) && sites[t := s].Keys == on + Added([o] + ops)
      requires Followed([o] + ops, code, ptrs) && AsRead([o] + ops, sites[t := s], code)
      modifies this`ops, this`sites, this`tramps, pool
      ensures Valid() && pool.live == old(pool.live) && pool.regions == old(pool.regions)
      ensures sites == old(sites)[t := s] && ops == [o] + old(ops) && tramps == old(tramps)[t := tramp]
    {
      KeepSite(t, s, tramp);
      ops := [o] + ops;
    }

    method KeepSite(t: int, s: Site, tramp: Trampoline)
      requires Base({t}) && pool.Valid() && Outside(s.target + s.n, pool.regions)
      requires CodeOk(code, own, sites[t := s], on) && AllApart(sites[t := s]) && PointersOk(sites[t := s], on, ptrs)
      requires SitesOk(sites[t := s], space, tramps[t := tramp], pool.remain[t := s.target + s.n], table)
      requires ReadsOk(sites[t := s], own, on)
      modifies this`sites, this`tramps, pool
      ensures Base({}) && pool.Valid() && pool.live == old(pool.live) && pool.regions == old(pool.regions)
      ensures sites == old(sites)[t := s] && tramps == old(tramps)[t := tramp]
    {
      tramps := tramps[t := tramp];
      pool.SetRemain(t, s.target + s.n);
      sites := sites[t := s];
    }

    // --------------------------------------------------------------------- detach

    /** The pointer leads to the trampoline of a hook put on it. That a pending
        operation takes it off already is not looked at. */
    ghost predicate Hooked(ptr: int)
      requires ptr in ptrs
      reads this
    {
      var t := ptrs[ptr];
      t in on && t in sites && sites[t].ptr == ptr
    }

    /** Prepares to take a hook off. Nothing but the list of operations changes. */
    method Detach(tid: int, ptr: int, hook: int, canWrite: bool) returns (e: Error)
      requires Valid() && tid != 0 && (ptr != 0 ==> ptr in ptrs)
      requires owner == tid && error == NoError && ptr != 0 && ptrs[ptr] != 0 ==> Hooked(ptr)
      modifies this`error, this`ops
      ensures Valid()
      ensures owner != tid ==> e == InvalidOperation && error == old(error)
      ensures owner == tid && old(error) != NoError ==> e == error == old(error)
      ensures e != NoError ==> ops == old(ops)
      ensures owner == tid && old(error) == NoError && (ptr == 0 || ptrs[ptr] == 0) ==>
                e == InvalidHandle && error == if ptr == 0 then NoError else e
      ensures owner == tid && old(error) == NoError && ptr != 0 && ptrs[ptr] != 0 ==>
                e == InvalidBlock || e == (if canWrite then NoError else System)
      ensures e == NoError <==> old(owner == tid && error == NoError) && ptr != 0 && ptrs[ptr] != 0
                                && ptrs[ptr] in tramps && tramps[ptrs[ptr]].xhook == Skip(code, hook) && canWrite
      ensures e == NoError ==> var t := ptrs[ptr]; t in sites && ops == [Op(true, ptr, sites[t].target, t)] + old(ops)
      ensures e == NoError ==> error == old(error)
    {
      if owner != tid { return InvalidOperation; }
      if error != NoError { return error; }
      if ptr == 0 { return InvalidHandle; }
      if ptrs[ptr] == 0 {
        error := InvalidHandle;
        return error;
      }
      NotInCode(ptrs[ptr]);
      var t, xhook := Skip(code, ptrs[ptr]), Skip(code, hook);
      assert SiteOk(t, sites[t], space, tramps, pool.remain, table);
      var cbTarget := tramps[t].CbRestore();
      var target := pool.remain[t] - cbTarget;
      if cbTarget == 0 || cbTarget > SIZE_OF_CODE || tramps[t].xhook != xhook {
        if !ignore { error := InvalidBlock; }
        return InvalidBlock;
      }
      if !canWrite {
        error := System;
        return error;
      }
      AddRemoval(ops, sites, on, Op(true, ptr, target, t));
      ops := [Op(true, ptr, target, t)] + ops;
      return NoError;
    }

    lemma NotInCode(t: int)
      requires Base({}) && t in sites
      ensures t !in code
    {
      pool.LiveIndex(t);
    }

    // --------------------------------------------------------------- commit and abort

    /** Puts one hook on or takes it off. The sites in rest keep what was read. */
    method ApplyOne(o: Op, ghost rest: set<int>)
      requires Base({}) && OpSite(o, sites) && ReadsOk(sites, own, rest)
      requires if o.isRemove then o.tramp !in rest else o.tramp !in on && o.tramp in rest
      modifies this`code, this`ptrs, this`on, this`own, this`codeIn
      ensures Base({}) && on == if o.isRemove then old(on) - {o.tramp} else old(on) + {o.tramp}
      ensures ptrs == old(ptrs)[o.ptr := if o.isRemove then o.target else o.tramp]
      ensures code == Patch(old(code), o.target, NewBytes(o, tramps))
      ensures own == (if o.isRemove then Patch(old(own), o.target, NewBytes(o, tramps)) else old(own)) && ReadsOk(sites, own, rest)
    {
      SwitchedPointers(sites, on, ptrs, o);
      assert SiteOk(o.tramp, sites[o.tramp], space, tramps, pool.remain, table);
      if o.isRemove { PutBack(o, rest); } else { PutOn(o); }
    }

    /** Writes the jump over the function and the one to the detour, and lets the
        pointer lead to the copy. */
    method PutOn(o: Op)
      requires Base({}) && OpSite(o, sites) && !o.isRemove && o.tramp !in on && ReadsOk(sites, own, {o.tramp})
      requires PointersOk(sites, on + {o.tramp}, ptrs[o.ptr := o.tramp])
      requires o.tramp in tramps && |tramps[o.tramp].Restore()| == sites[o.tramp].n
      modifies this`code, this`ptrs, this`on, this`codeIn
      ensures Base({}) && on == old(on) + {o.tramp} && ptrs == old(ptrs)[o.ptr := o.tramp]
      ensures code == Patch(old(code), o.target, NewBytes(o, tramps))
    {
      TurnOn(code, own, sites, on, o.tramp);
      codeIn := codeIn[o.tramp := JumpThrough(CODE_IN, PB_XHOOK) + [BREAK, BREAK]];
      code := Patch(code, o.target, JumpTo(o.tramp, o.target, |tramps[o.tramp].Restore()|));
      ptrs := ptrs[o.ptr := o.tramp];
      on := on + {o.tramp};
    }

    /** Writes the bytes kept, and lets the pointer lead to the function. */
    method PutBack(o: Op, ghost rest: set<int>)
      requires Base({}) && OpSite(o, sites) && o.isRemove && ReadsOk(sites, own, rest) && o.tramp !in rest
      requires PointersOk(sites, on - {o.tramp}, ptrs[o.ptr := o.target])
      requires o.tramp in tramps && |tramps[o.tramp].Restore()| == sites[o.tramp].n
      modifies this`code, this`ptrs, this`on, this`own
      ensures Base({}) && on == old(on) - {o.tramp} && ptrs == old(ptrs)[o.ptr := o.target]
      ensures code == Patch(old(code), o.target, NewBytes(o, tramps))
      ensures own == Patch(old(own), o.target, NewBytes(o, tramps)) && ReadsOk(sites, own, rest)
    {
      ghost var bytes := tramps[o.tramp].Restore();
      TurnOff(code, own, sites, on, o.tramp, bytes);
      ReadsElsewhere(sites, own, on, o.tramp, bytes);
      ReadsElsewhere(sites, own, rest, o.tramp, bytes);
      assert rest - {o.tramp} == rest;
      code := Patch(code, o.target, tramps[o.tramp].Restore());
      own := Patch(own, o.target, bytes);
      ptrs := ptrs[o.ptr := o.target];
      on := on - {o.tramp};
    }

    /** The first loop of a commit. */
    method ApplyAll()
      requires Base({}) && OpsOk(ops, sites, on) && ReadsOk(sites, own, Added(ops))
      modifies this`code, this`ptrs, this`on, this`own, this`codeIn
      ensures Base({}) && on == (old(on) + Added(ops)) - Gone(ops)
      ensures ptrs == PointersAfter(old(ptrs), ops) && code == CodeAfter(old(code), ops, tramps) && own == OwnAfter(old(own), ops, tramps)
    {
      var i := 0;
      Disjoint(ops, sites, on);
      NoneApplied(ops, tramps, code, own, ptrs, on);
      while i < |ops|
        invariant 0 <= i <= |ops| && Base({}) && ReadsOk(sites, own, Added(ops))
        invariant Applied(ops, i, tramps, old(code), old(own), old(ptrs), old(on), code, own, ptrs, on)
      {
        ApplyNext(i, old(code), old(own), old(ptrs), old(on));
        i := i + 1;
      }
      AllApplied(ops, tramps, old(code), old(own), old(ptrs), old(on), code, own, ptrs, on);
    }

    /** The body of the loop. */
    method ApplyNext(i: nat, ghost code0: Code, ghost own0: Code, ghost ptrs0: map<int, int>, ghost on0: set<int>)
      requires Base({}) && i < |ops| && OpsOk(ops, sites, on0) && ReadsOk(sites, own, Added(ops)) && Added(ops) !! Gone(ops)
      requires Applied(ops, i, tramps, code0, own0, ptrs0, on0, code, own, ptrs, on)
      modifies this`code, this`ptrs, this`on, this`own, this`codeIn
      ensures Base({}) && ReadsOk(sites, own, Added(ops))
      ensures Applied(ops, i + 1, tramps, code0, own0, ptrs0, on0, code, own, ptrs, on)
    {
      NextOp(ops, i, sites, on0, on);
      OneApplied(ops, i, tramps, code0, own0, ptrs0, on0, code, own, ptrs, on);
      ApplyOne(ops[i], Added(ops));
    }

    /** Gives the trampoline of a hook that is off back, or gives it back again. */
    method ReleaseOne(t: int)
      requires Base({}) && t !in on && IsSlot(t) && RegionOf(t) in pool.regions && IndexOf(t) >= 2
      modifies this`sites, pool
      ensures Base({}) && sites == old(sites) - {t} && pool.regions == old(pool.regions)
      ensures pool.knots.Keys == old(pool.knots).Keys + if t in old(sites) then {} else {RegionOf(t)}
    {
      ghost var was := pool.remain;
      Dropped(code, own, space, sites, on, tramps, pool.remain, table, t, ptrs);
      pool.FreeTrampoline(t);
      sites := sites - {t};
      SitesKept(sites, space, tramps, was, pool.remain, table);
    }

    /** The last loop of a commit gives back the trampolines of the hooks taken off,
        and that of an abort those of the hooks never put on. The regions of those
        given back twice are in order no more. */
    method Release(removals: bool) returns (freed: bool)
      requires Base({}) && sites.Keys == on + Picked(ops, removals) && on !! Picked(ops, removals)
      modifies this`sites, pool
      ensures Base({}) && sites.Keys == on && sites == old(sites) - Picked(ops, removals)
      ensures pool.regions == old(pool.regions)
      ensures pool.knots.Keys == old(pool.knots).Keys + Regions(Again(ops, removals))
      ensures freed <==> Picked(ops, removals) != {}
    {
      ghost var knots0 := pool.knots.Keys;
      SlotsOf(Picked(ops, removals));
      var i := 0;
      freed := false;
      NoneFinished(ops, removals, on, knots0);
      while i < |ops|
        invariant 0 <= i <= |ops| && Base({}) && pool.regions == old(pool.regions)
        invariant Finished(ops, i, removals, on, sites.Keys, knots0, pool.knots.Keys, freed)
        invariant sites == old(sites) - Picked(ops[..i], removals)
      {
        freed := ReleaseNext(i, removals, freed, old(sites), knots0);
        i := i + 1;
      }
      assert ops[..|ops|] == ops;
      AllFinished(ops, removals, on, sites.Keys, knots0, pool.knots.Keys, freed);
    }

    /** The body of the loop. */
    method ReleaseNext(i: nat, removals: bool, was: bool, ghost sites0: map<int, Site>, ghost knots0: set<int>) returns (freed: bool)
      requires Base({}) && i < |ops| && on !! Picked(ops, removals) && sites == sites0 - Picked(ops[..i], removals)
      requires Finished(ops, i, removals, on, sites.Keys, knots0, pool.knots.Keys, was)
      requires forall t | t in Picked(ops, removals) :: IsSlot(t) && RegionOf(t) in pool.regions && IndexOf(t) >= 2
      modifies this`sites, pool
      ensures Base({}) && pool.regions == old(pool.regions) && sites == sites0 - Picked(ops[..i + 1], removals)
      ensures Finished(ops, i + 1, removals, on, sites.Keys, knots0, pool.knots.Keys, freed)
    {
      OneFinished(ops, i, removals, on, sites.Keys, knots0, pool.knots.Keys, was);
      SitesNext(ops, i, removals, sites0, sites);
      freed := was;
      if ops[i].isRemove == removals {
        ReleasePicked(i, removals);
        freed := true;
      }
    }

    method ReleasePicked(i: nat, removals: bool)
      requires Base({}) && i < |ops| && ops[i].isRemove == removals && on !! Picked(ops, removals)
      requires sites.Keys == on + (Picked(ops, removals) - Picked(ops[..i], removals))
      requires forall t | t in Picked(ops, removals) :: IsSlot(t) && RegionOf(t) in pool.regions && IndexOf(t) >= 2
      modifies this`sites, pool
      ensures Base({}) && pool.regions == old(pool.regions) && sites == old(sites) - {ops[i].tramp}
      ensures pool.knots.Keys
           == old(pool.knots).Keys + if ops[i].tramp in Picked(ops[..i], removals) then {RegionOf(ops[i].tramp)} else {}
    {
      PickedNext(ops, i, removals);
      ReleasedNext(ops, i, removals, on, sites.Keys);
      ReleaseOne(ops[i].tramp);
    }

    /** Trampolines of sites are slots that can be given out. */
    lemma SlotsOf(ts: set<int>)
      requires Base({}) && ts <= sites.Keys
      ensures forall t | t in ts :: IsSlot(t) && RegionOf(t) in pool.regions && IndexOf(t) >= 2
    {
      forall t | t in ts ensures IsSlot(t) && RegionOf(t) in pool.regions && IndexOf(t) >= 2 { pool.LiveIndex(t); }
    }

    /** If a trampoline has been given back, the regions without a hook have been
        released, unless they are to be retained; and no others. */
    ghost predicate Released(regions: seq<int>, back: bool)
      reads this, pool
    {
      if back && !retain then forall b :: b in pool.regions <==> b in regions && InUse(b, pool.live)
      else pool.regions == regions
    }

    /** Carries out the pending operations. The program is as it should be whatever
        they are, and the trampolines are if and only if none is given back twice
        or its region is released with it. */
    method Commit(tid: int) returns (e: Error)
      requires Valid() && tid != 0
      modifies this`code, this`own, this`codeIn, this`ptrs, this`on, this`sites, this`ops, this`owner, pool
      ensures Base({})
      ensures pool.Sound() ==> Valid()
      ensures pool.Sound() <==> (old(owner == tid && error == NoError) ==> old(KeepsPool(ops, on, retain)))
      ensures old(owner) != tid ==> e == InvalidOperation && code == old(code) && own == old(own) && ptrs == old(ptrs) && sites == old(sites)
                                    && on == old(on) && ops == old(ops) && owner == old(owner)
      ensures old(owner) == tid ==> owner == 0 && ops == [] && e == error && sites.Keys == on == pool.live
      ensures old(owner == tid && error != NoError) ==> code == old(code) && own == old(own) && ptrs == old(ptrs) && on == old(on)
      ensures old(owner == tid && error == NoError) ==>
                && on == (old(on) + Added(old(ops))) - Gone(old(ops))
                && ptrs == PointersAfter(old(ptrs), old(ops))
                && code == CodeAfter(old(code), old(ops), tramps) && own == OwnAfter(old(own), old(ops), tramps)
      ensures old(owner) == tid ==> sites == old(sites) - Picked(old(ops), old(error) == NoError)
      ensures Released(old(pool.regions), old(owner == tid && error == NoError && Gone(ops) != {}))
    {
      e := if owner != tid then InvalidOperation else error;
      if owner == tid {
        if error != NoError { CommitFailed(tid); } else { CommitAll(); }
      }
      pool.SoundIsValid();
    }

    /** A commit of operations of which one has failed. */
    method CommitFailed(tid: int)
      requires Valid() && tid != 0 && owner == tid
      modifies this`ops, this`owner, this`sites, pool
      ensures Valid() && owner == 0 && ops == [] && sites.Keys == on == pool.live
      ensures sites == old(sites) - Added(old(ops)) && pool.regions == old(pool.regions)
    {
      var a := Abort(tid);
    }

    /** A commit of operations none of which has failed. */
    method CommitAll()
      requires Valid() && error == NoError
      modifies this`code, this`own, this`codeIn, this`ptrs, this`on, this`sites, this`ops, this`owner, pool
      ensures Base({}) && owner == 0 && ops == [] && (pool.Valid() ==> Valid())
      ensures sites.Keys == on == pool.live && sites == old(sites) - Gone(old(ops))
      ensures on == (old(on) + Added(old(ops))) - Gone(old(ops)) && ptrs == PointersAfter(old(ptrs), old(ops))
      ensures code == CodeAfter(old(code), old(ops), tramps) && own == OwnAfter(old(own), old(ops), tramps)
      ensures Released(old(pool.regions), Gone(old(ops)) != {})
      ensures pool.Valid() <==> KeepsPool(old(ops), old(on), retain)
    {
      CarryOut();
      Forget();
    }

    /** No transaction is pending any more. */
    method Forget()
      requires Base({}) && sites.Keys == on
      modifies this`ops, this`owner
      ensures Base({}) && ops == [] && owner == 0 && (pool.Valid() ==> Valid())
    {
      NothingPending(sites, on, own, code, ptrs);
      ops, owner := [], 0;
    }

    /** Changes the program, and gives back the trampolines of the removals. */
    method CarryOut()
      requires Base({}) && pool.Valid() && OpsOk(ops, sites, on) && sites.Keys == on + Added(ops) && ReadsOk(sites, own, Added(ops))
      modifies this`code, this`own, this`codeIn, this`ptrs, this`on, this`sites, pool
      ensures Base({}) && sites.Keys == on == pool.live && sites == old(sites) - Gone(ops)
      ensures on == (old(on) + Added(ops)) - Gone(ops) && ptrs == PointersAfter(old(ptrs), ops)
      ensures code == CodeAfter(old(code), ops, tramps) && own == OwnAfter(old(own), ops, tramps)
      ensures Released(old(pool.regions), Gone(old(ops)) != {})
      ensures pool.Valid() <==> KeepsPool(ops, old(on), retain)
    {
      ghost var on0 := on;
      Disjoint(ops, sites, on);
      ApplyAll();
      GiveBackGone(on0);
    }

    /** Gives back the trampolines of the hooks taken off, and releases regions. */
    method GiveBackGone(ghost on0: set<int>)
      requires Base({}) && pool.Valid() && sites.Keys == on + Gone(ops) && on !! Gone(ops) && on == (on0 + Added(ops)) - Gone(ops)
      modifies this`sites, pool
      ensures Base({}) && sites.Keys == on == pool.live && sites == old(sites) - Gone(ops)
      ensures Released(old(pool.regions), Gone(ops) != {})
      ensures pool.Valid() <==> KeepsPool(ops, on0, retain)
    {
      ghost var regions0 := pool.regions;
      SlotsOf(Gone(ops));
      var freed := Release(true);
      AgainIsPicked(ops, true);
      if freed && !retain { pool.FreeUnused(); }
      KnotsLeft(ops, on0, on, retain, regions0, pool.regions, pool.knots.Keys);
    }

    // ---------------------------------------------------------------- what a hook does

    /** The address kept in a trampoline. */
    ghost function Field(t: int, a: int): int
      requires t in pool.remain && t in tramps
      reads this, pool
    {
      if a == t + PB_REMAIN then pool.remain[t] else if a == t + PB_XHOOK then tramps[t].xhook else 0
    }

    /** A function that is hooked starts with a jump into its trampoline, from where
        another goes to the detour. */
    lemma HookLeads(t: int)
      requires Base({}) && t in on
      ensures t in sites && t in tramps && t in pool.remain && t in codeIn && Mapped(code, sites[t].target, sites[t].n)
      ensures Read(code, sites[t].target, sites[t].n) == JumpTo(t, sites[t].target, sites[t].n)
      ensures EffectOf(dec, JumpTo(t, sites[t].target, sites[t].n)[..SIZE_OF_JMP], sites[t].target) == Goes(Jump, t + CODE_IN)
      ensures IsJumpThrough(codeIn[t]) && Field(t, Through(codeIn[t], t + CODE_IN)) == tramps[t].xhook
    {
      var s := sites[t];
      assert SiteOk(t, s, space, tramps, pool.remain, table) && ReadOk(s, own);
      JumpWritten(code, own, sites, on, t);
      JumpLeads(dec, t, s.target, s.n);
      JumpsThrough(t, CODE_IN, PB_XHOOK, [BREAK, BREAK]);
    }

    /** The pointer leads to code that does what the function's own first bytes did,
        if and only if each branch among them reaches its target from there, and
        then goes on in the function, behind the jump and any filler. */
    lemma HookActs(t: int)
      requires Lawful(table) && Base({}) && t in on
      ensures t in sites && t in tramps && t in pool.remain && |tramps[t].image| == IMAGE_SIZE
      ensures sites[t].ptr in ptrs && ptrs[sites[t].ptr] == t
      ensures var s, n := sites[t], |Copy(t, sites[t], table)|;
              var used := Consumed(table, s.read, SIZE_OF_JMP);
              && used <= s.n && Mapped(own, s.target, s.n) && n <= IMAGE_SIZE
              && (forall x | s.target + used <= x < s.target + s.n :: own[x] == 0x90)
              && (SameEffects(table, tramps[t].image[..n], t, Read(own, s.target, used), s.target)
                  <==> OutOfReach(table, s.read, s.target, t, SIZE_OF_JMP) == 0)
              && IsJumpThrough(tramps[t].image[n..])
              && Field(t, Through(tramps[t].image[n..], t + n)) == s.target + s.n
    {
      var s := sites[t];
      assert SiteOk(t, s, space, tramps, pool.remain, table) && ReadOk(s, own);
      ConsumedIsMoved(table, s.read, s.target, t, SIZE_OF_JMP);
      MovedActs(t, s, own, table);
      CodeRead(tramps[t].image, t, Copy(t, s, table), s.read[..s.n]);
    }

    // ------------------------------------------------------------------ there and back

    /** Commits a transaction that adds hooks, and then takes them all off in a
        second one, the detours being followed to where they were. The bytes are as
        before if and only if no function is one that loses its first byte, which is
        zero then. A pointer leads to where it was followed to, and all pointers are
        as before if and only if none of them led to a jump. */
    method CommitAndUndo(tid: int, hooks: seq<int>)
      requires IsX64(table, dec)
      requires Valid() && tid != 0 && owner == tid && error == NoError && |hooks| == |ops|
      requires forall k | 0 <= k < |ops| :: Detour(ops[k], hooks[k], CodeAfter(code, ops, tramps), tramps)
      modifies this`code, this`own, this`codeIn, this`ptrs, this`on, this`sites, this`ops, this`owner, this`error, pool
      ensures Valid() && owner == 0 && on == old(on) && pool.live == old(on) && Released(old(pool.regions), old(ops) != [])
      ensures code == Zeroed(old(code), Lost(old(ops), old(code), dec))
      ensures code == old(code) <==> Lost(old(ops), old(code), dec) == {}
      ensures ptrs.Keys == old(ptrs).Keys
      ensures forall o | o in old(ops) :: o.ptr in old(ptrs) && o.ptr in ptrs && ptrs[o.ptr] == Skip(old(code), old(ptrs)[o.ptr])
      ensures forall p | p in old(ptrs) && (forall o | o in old(ops) :: o.ptr != p) :: p in ptrs && ptrs[p] == old(ptrs)[p]
      ensures ptrs == old(ptrs) <==> forall o | o in old(ops) :: o.ptr in old(ptrs) && Skip(old(code), old(ptrs)[o.ptr]) == old(ptrs)[o.ptr]
    {
      ghost var todo, code0, ptrs0 := ops, code, ptrs;
      CommitTwice(tid, hooks);
      PointersBack(code0, ptrs0, todo);
      LostIsChange(todo, code0, dec);
    }

    method CommitTwice(tid: int, hooks: seq<int>)
      requires IsX64(table, dec)
      requires Valid() && tid != 0 && owner == tid && error == NoError && |hooks| == |ops|
      requires forall k | 0 <= k < |ops| :: Detour(ops[k], hooks[k], CodeAfter(code, ops, tramps), tramps)
      modifies this`code, this`own, this`codeIn, this`ptrs, this`on, this`sites, this`ops, this`owner, this`error, pool
      ensures Valid() && owner == 0 && on == old(on) && pool.live == old(on) && Released(old(pool.regions), old(ops) != [])
      ensures code == Zeroed(old(code), Lost(old(ops), old(code), dec))
      ensures ptrs == PointersAfter(PointersAfter(old(ptrs), old(ops)), Undo(old(ops)))
      ensures Coherent(old(ops)) && Followed(old(ops), old(code), old(ptrs)) && forall o | o in old(ops) :: !o.isRemove
    {
      ghost var todo, code0, own0, sites0, on0, remain0 := ops, code, own, sites, on, pool.remain;
      CommitAndDetach(tid, hooks);
      CommitRemovals(tid, todo, on0);
      BytesBack(code0, own0, sites0, on0, code, own, sites, todo, tramps, space, remain0, table, dec);
    }

    /** The second half of it. */
    method CommitRemovals(tid: int, ghost todo: seq<Op>, ghost on0: set<int>)
      requires Valid() && tid != 0 && owner == tid && error == NoError && ops == Undo(todo)
      requires Coherent(todo) && (forall o | o in todo :: !o.isRemove) && on == on0 + Added(todo) && on0 !! Added(todo)
      modifies this`code, this`own, this`codeIn, this`ptrs, this`on, this`sites, this`ops, this`owner, pool
      ensures Valid() && owner == 0 && on == on0 && pool.live == on0 && Released(old(pool.regions), todo != [])
      ensures own == OwnAfter(old(own), Undo(todo), tramps) && ptrs == PointersAfter(old(ptrs), Undo(todo))
      ensures forall t | t in on :: t in old(sites) && t in sites && sites[t] == old(sites)[t]
    {
      UndoAll(todo);
      UndoOnce(todo);
      AddedNone(todo);
      var e := Commit(tid);
      assert on == on0;
    }

    /** The first half of it. */
    method CommitAndDetach(tid: int, hooks: seq<int>)
      requires Valid() && tid != 0 && owner == tid && error == NoError && |hooks| == |ops|
      requires forall k | 0 <= k < |ops| :: Detour(ops[k], hooks[k], CodeAfter(code, ops, tramps), tramps)
      modifies this`code, this`own, this`codeIn, this`ptrs, this`on, this`sites, this`ops, this`owner, this`error, pool
      ensures pool.regions == old(pool.regions) && own == old(own)
      ensures Valid() && owner == tid && error == NoError && ops == Undo(old(ops)) && Followed(old(ops), old(code), old(ptrs))
      ensures AllOn(sites, on, ptrs, old(sites), old(on), old(ptrs), old(ops))
    {
      var todo := ops;
      CommitAdditions(tid, hooks);
      BeginAndDetach(tid, todo, hooks);
    }

    method BeginAndDetach(tid: int, todo: seq<Op>, hooks: seq<int>)
      requires Valid() && tid != 0 && owner == 0 && |hooks| == |todo|
      requires forall k | 0 <= k < |todo| :: Detachable(todo[k], hooks[k], code, sites, on, tramps)
      modifies this`owner, this`error, this`ops
      ensures Valid() && owner == tid && error == NoError && ops == Undo(todo)
    {
      BeginAgain(tid, todo, hooks);
      DetachAll(tid, todo, hooks);
    }

    method BeginAgain(tid: int, ghost todo: seq<Op>, ghost hooks: seq<int>)
      requires Valid() && tid != 0 && owner == 0 && |hooks| == |todo|
      requires forall k | 0 <= k < |todo| :: Detachable(todo[k], hooks[k], code, sites, on, tramps)
      modifies this`owner, this`error, this`ops
      ensures Valid() && owner == tid && error == NoError && ops == []
      ensures forall k | 0 <= k < |todo| :: Detachable(todo[k], hooks[k], code, sites, on, tramps)
    {
      var e := Begin(tid);
    }

    method CommitAdditions(tid: int, ghost hooks: seq<int>)
      requires Valid() && tid != 0 && owner == tid && error == NoError && |hooks| == |ops|
      requires forall k | 0 <= k < |ops| :: Detour(ops[k], hooks[k], CodeAfter(code, ops, tramps), tramps)
      modifies this`code, this`own, this`codeIn, this`ptrs, this`on, this`sites, this`ops, this`owner, pool
      ensures pool.regions == old(pool.regions) && own == old(own)
      ensures Valid() && owner == 0
      ensures AllOn(sites, on, ptrs, old(sites), old(on), old(ptrs), old(ops))
      ensures forall k | 0 <= k < |old(ops)| :: Detachable(old(ops)[k], hooks[k], code, sites, on, tramps)
    {
      ghost var todo, sites0, on0 := ops, sites, on;
      Disjoint(ops, sites, on);
      NothingGone(ops);
      AgainIsPicked(ops, true);
      OwnAdded(own, ops, tramps);
      var e := Commit(tid);
      assert on == on0 + Added(todo);
      NowOn(todo, hooks, code, tramps, sites0, on0, sites, on);
    }

    /** Detaches every hook of a list of committed additions. */
    method DetachAll(tid: int, todo: seq<Op>, hooks: seq<int>)
      requires Valid() && tid != 0 && owner == tid && error == NoError && ops == [] && |hooks| == |todo|
      requires forall k | 0 <= k < |todo| :: Detachable(todo[k], hooks[k], code, sites, on, tramps)
      modifies this`error, this`ops
      ensures Valid() && error == NoError && ops == Undo(todo)
    {
      var k := 0;
      while k < |todo|
        invariant 0 <= k <= |todo| && Valid() && error == NoError && ops == Undo(todo[..k])
      {
        DetachNext(tid, todo, k, hooks[k]);
        k := k + 1;
      }
      assert todo[..k] == todo;
    }

    method DetachNext(tid: int, todo: seq<Op>, k: nat, hook: int)
      requires Valid() && tid != 0 && owner == tid && error == NoError && k < |todo| && ops == Undo(todo[..k])
      requires Detachable(todo[k], hook, code, sites, on, tramps)
      modifies this`error, this`ops
      ensures Valid() && error == NoError && ops == Undo(todo[..k + 1])
    {
      var o := todo[k];
      assert ptrs[o.ptr] == o.tramp;
      TrampolineNotNull(o.tramp);
      var e := Detach(tid, o.ptr, hook, true);
      assert todo[..k + 1][..k] == todo[..k];
    }

    /** The whole way for one hook: begin, attach, commit, begin, detach, commit. If
        the attach fails, the transaction is dropped. The bytes are as before if and
        only if the function does not lose its first one. The free trampolines are
        as before if and only if every region is in use, where those that are not
        are released, and otherwise if no region had to be made. */
    method HookAndUnhook(tid: int, ptr: int, hook: int, found: int, canWrite: bool) returns (ok: bool)
      requires IsX64(table, dec) && Valid() && tid != 0 && owner == 0 && ptr != 0 && ptr in ptrs && ptrs[ptr] != 0
      requires found == 0 || Unused(found)
      requires Clear(ptr, Skip(code, ptrs[ptr])) && Skip(code, hook) != Skip(code, ptrs[ptr])
      requires Undisturbed(hook, Skip(code, ptrs[ptr]))
      modifies this`code, this`own, this`codeIn, this`ptrs, this`on, this`sites, this`tramps, this`ops, this`owner, this`error, pool
      ensures Valid() && owner == 0 && on == old(on) && pool.live == old(pool.live)
      ensures var target := Skip(old(code), old(ptrs)[ptr]);
              && (ok <==> old(Outcome(target, pool.NoneInReach(target, found), canWrite)) == NoError)
              && code == (if ok then Unhooked(old(code), target, dec) else old(code))
              && (code == old(code) <==> !(ok && Spoils(Read(old(code), target, READ_SIZE), dec)))
              && ptrs == (if ok then old(ptrs)[ptr := target] else old(ptrs))
              && (ptrs == old(ptrs) <==> !(ok && target != old(ptrs)[ptr]))
      ensures (forall p :: pool.Free(p) <==> old(pool.Free(p)))
              <==> if ok && !retain then old(forall b | b in pool.regions :: InUse(b, pool.live))
                   else found == 0 || old(pool.SomeInReach(Skip(code, ptrs[ptr])))
    {
      var target := Skip(code, ptrs[ptr]);
      ghost var live, was, made := pool.live, pool.regions, found != 0 && !pool.SomeInReach(target);
      pool.LiveIn();
      UnhookedIsChange(code, target, dec);
      ok := ThereAndBack(tid, ptr, hook, found, canWrite);
      FreeSame(was, pool.regions, live, found, made, ok && !retain);
      assert forall p :: pool.Free(p) <==> FreeIn(p, pool.regions, live);
      assert forall p :: old(pool.Free(p)) <==> FreeIn(p, was, live);
    }

    method ThereAndBack(tid: int, ptr: int, hook: int, found: int, canWrite: bool) returns (ok: bool)
      requires IsX64(table, dec) && Valid() && tid != 0 && owner == 0 && ptr != 0 && ptr in ptrs && ptrs[ptr] != 0
      requires found == 0 || Unused(found)
      requires Clear(ptr, Skip(code, ptrs[ptr])) && Skip(code, hook) != Skip(code, ptrs[ptr])
      requires Undisturbed(hook, Skip(code, ptrs[ptr]))
      modifies this`code, this`own, this`codeIn, this`ptrs, this`on, this`sites, this`tramps, this`ops, this`owner, this`error, pool
      ensures Valid() && owner == 0 && on == old(on) && pool.live == old(pool.live)
      ensures var target := Skip(old(code), old(ptrs)[ptr]);
              && (ok <==> old(Outcome(target, pool.NoneInReach(target, found), canWrite)) == NoError)
              && code == (if ok then Unhooked(old(code), target, dec) else old(code))
              && ptrs == (if ok then old(ptrs)[ptr := target] else old(ptrs))
              && Released(old(pool.RegionsFor(target, found)), ok)
    {
      var target := Skip(code, ptrs[ptr]);
      ok := BeginAndAttach(tid, ptr, hook, found, canWrite);
      if ok {
        CommitAndUndoOne(tid, ptr, hook, target);
      } else {
        var e := Abort(tid);
      }
    }

    method CommitAndUndoOne(tid: int, ptr: int, hook: int, target: int)
      requires IsX64(table, dec)
      requires Valid() && tid != 0 && owner == tid && error == NoError && ptr in ptrs && target == Skip(code, ptrs[ptr])
      requires Mapped(code, target, READ_SIZE)
      requires |ops| == 1 && ops[0].ptr == ptr && Detour(ops[0], hook, CodeAfter(code, ops, tramps), tramps)
      modifies this`code, this`own, this`codeIn, this`ptrs, this`on, this`sites, this`ops, this`owner, this`error, pool
      ensures Valid() && owner == 0 && on == old(on) && pool.live == old(on) && Released(old(pool.regions), true)
      ensures code == Unhooked(old(code), target, dec) && ptrs == old(ptrs)[ptr := target]
    {
      assert ops[0] in ops;
      LostOne(ops, code, dec, target);
      OnePointer(ops, ptrs, ptr, target);
      CommitTwice(tid, [hook]);
    }

    /** The first half of it. */
    method BeginAndAttach(tid: int, ptr: int, hook: int, found: int, canWrite: bool) returns (ok: bool)
      requires IsX64(table, dec) && Valid() && tid != 0 && owner == 0 && ptr != 0 && ptr in ptrs && ptrs[ptr] != 0
      requires found == 0 || Unused(found)
      requires Clear(ptr, Skip(code, ptrs[ptr])) && Skip(code, hook) != Skip(code, ptrs[ptr])
      requires Undisturbed(hook, Skip(code, ptrs[ptr]))
      modifies this`sites, this`tramps, this`ops, this`owner, this`error, pool
      ensures Valid() && owner == tid && pool.regions == old(pool.RegionsFor(Skip(code, ptrs[ptr]), found))
      ensures ok <==> Outcome(Skip(code, ptrs[ptr]), old(pool.NoneInReach(Skip(code, ptrs[ptr]), found)), canWrite) == NoError
      ensures ok ==> error == NoError && |ops| == 1 && ops[0].ptr == ptr && Detour(ops[0], hook, CodeAfter(code, ops, tramps), tramps)
    {
      var e := Begin(tid);
      ok := AttachFirst(tid, ptr, hook, found, canWrite);
    }

    method AttachFirst(tid: int, ptr: int, hook: int, found: int, canWrite: bool) returns (ok: bool)
      requires IsX64(table, dec) && Valid() && tid != 0 && owner == tid && error == NoError && ops == []
      requires ptr != 0 && ptr in ptrs && ptrs[ptr] != 0 && (found == 0 || Unused(found))
      requires Clear(ptr, Skip(code, ptrs[ptr])) && Skip(code, hook) != Skip(code, ptrs[ptr])
      requires Undisturbed(hook, Skip(code, ptrs[ptr]))
      modifies this`sites, this`tramps, this`ops, this`error, pool
      ensures Valid() && pool.regions == old(pool.RegionsFor(Skip(code, ptrs[ptr]), found))
      ensures ok <==> Outcome(Skip(code, ptrs[ptr]), old(pool.NoneInReach(Skip(code, ptrs[ptr]), found)), canWrite) == NoError
      ensures ok ==> error == NoError && |ops| == 1 && ops[0].ptr == ptr && Detour(ops[0], hook, CodeAfter(code, ops, tramps), tramps)
    {
      var e;
      ghost var t;
      e, t := Attach(tid, ptr, hook, found, canWrite);
      ok := e == NoError;
      if ok { DetourStays(t, hook); }
    }

    /** A detour is followed without looking at the bytes that a jump at target would
        take the place of. */
    ghost predicate Undisturbed(hook: int, target: int)
      requires Mapped(code, target, READ_SIZE)
      reads this
    {
      var n := Footprint(table, Read(code, target, READ_SIZE));
      forall x | x in SkipReads(code, hook) :: !(target <= x < target + n)
    }

    lemma DetourStays(t: int, hook: int)
      requires Base({}) && |ops| == 1 && ops[0].tramp == t && OpSite(ops[0], sites)
      requires Mapped(code, sites[t].target, READ_SIZE) && sites[t].read == Read(code, sites[t].target, READ_SIZE)
      requires Undisturbed(hook, sites[t].target)
      ensures Skip(CodeAfter(code, ops, tramps), hook) == Skip(code, hook)
    {
      assert SiteOk(t, sites[t], space, tramps, pool.remain, table);
      assert |NewBytes(ops[0], tramps)| == sites[t].n;
      DetourKept(code, ops, tramps, hook);
    }

    /** Detaching one pointer twice in a transaction succeeds both times. The commit
        then leaves a free list that cannot be followed to its end, unless the region
        goes with it: that is, unless no other hook is on in it and regions are not
        retained. */
    method DetachTwice(tid: int, ptr: int, hook: int)
      requires Valid() && tid != 0 && owner == 0 && ptr != 0 && ptr in ptrs && ptrs[ptr] != 0 && Hooked(ptr)
      requires ptrs[ptr] in tramps && tramps[ptrs[ptr]].xhook == Skip(code, hook)
      modifies this`code, this`own, this`codeIn, this`ptrs, this`on, this`sites, this`ops, this`owner, this`error, pool
      ensures Base({}) && owner == 0 && on == old(on) - {old(ptrs)[ptr]}
      ensures pool.Sound() <==> !retain && forall t | t in on :: RegionOf(t) != RegionOf(old(ptrs)[ptr])
    {
      ghost var t := ptrs[ptr];
      NoteTwice(tid, ptr, hook);
      TwiceAgain(ops, on, t);
      var e := Commit(tid);
    }

    method NoteTwice(tid: int, ptr: int, hook: int)
      requires Valid() && tid != 0 && owner == 0 && ptr != 0 && ptr in ptrs && ptrs[ptr] != 0 && Hooked(ptr)
      requires ptrs[ptr] in tramps && tramps[ptrs[ptr]].xhook == Skip(code, hook)
      modifies this`ops, this`owner, this`error
      ensures Valid() && owner == tid && error == NoError
      ensures |ops| == 2 && ops[0] == ops[1] && ops[0].isRemove && ops[0].tramp == ptrs[ptr]
    {
      var e := Begin(tid);
      e := Detach(tid, ptr, hook, true);
      e := Detach(tid, ptr, hook, true);
    }

    lemma TrampolineNotNull(t: int)
      requires Base({}) && t in sites
      ensures t != 0
    {
      pool.LiveIndex(t);
      SlotAtIndex(t);
    }

    /** Drops the pending operations: no byte of code and no pointer changes, and
        the trampolines taken are given back. */
    method Abort(tid: int) returns (e: Error)
      requires Valid() && tid != 0
      modifies this`ops, this`owner, this`sites, pool
      ensures Valid() && e == if old(owner) == tid then NoError else InvalidOperation
      ensures old(owner) != tid ==> sites == old(sites) && ops == old(ops) && owner == old(owner)
      ensures old(owner) == tid ==> owner == 0 && ops == [] && sites.Keys == on == pool.live
      ensures old(owner) == tid ==> sites == old(sites) - Added(old(ops))
      ensures pool.regions == old(pool.regions)
    {
      if owner != tid { return InvalidOperation; }
      GiveBackAdded();
      Forget();
      return NoError;
    }

    /** The trampolines of the hooks never put on. */
    method GiveBackAdded()
      requires Valid()
      modifies this`sites, pool
      ensures Base({}) && pool.Valid() && sites.Keys == on && pool.regions == old(pool.regions)
      ensures sites == old(sites) - Added(ops)
    {
      Disjoint(ops, sites, on);
      AddedOnce(ops);
      var freed := Release(false);
    }
  }

  /** The operations that undo those that add hooks, as they are noted. */
  function Undo(ops: seq<Op>): seq<Op> {
    if ops == [] then []
    else
      var last := ops[|ops| - 1];
      [Op(true, last.ptr, last.target, last.tramp)] + Undo(ops[..|ops| - 1])
  }

  lemma {:induction false} UndoAt(ops: seq<Op>, j: nat)
    requires j < |ops|
    ensures |Undo(ops)| == |ops|
    ensures var o := ops[|ops| - 1 - j]; Undo(ops)[j] == Op(true, o.ptr, o.target, o.tramp)
  {
    var n := |ops| - 1;
    if n > 0 { UndoAt(ops[..n], if j > 0 then j - 1 else 0); }
  }

  lemma {:induction false} UndoAll(ops: seq<Op>)
    requires forall o | o in ops :: !o.isRemove
    ensures Gone(Undo(ops)) == Added(ops) && Added(Undo(ops)) == {}
    ensures forall o | o in Undo(ops) :: o.isRemove && Op(false, o.ptr, o.target, o.tramp) in ops
    ensures forall o | o in ops :: Op(true, o.ptr, o.target, o.tramp) in Undo(ops)
  {
    if ops != [] {
      var n := |ops| - 1;
      UndoAll(ops[..n]);
      assert ops == ops[..n] + [ops[n]];
    }
  }

  /** No hook is taken off twice. */
  lemma UndoOnce(ops: seq<Op>)
    requires Coherent(ops) && forall o | o in ops :: !o.isRemove
    ensures Again(Undo(ops), true) == {}
  {
    var undo, n := Undo(ops), |ops|;
    forall t ensures t !in Again(undo, true) {
      AgainIsTwice(undo, true, t);
      forall j, k | 0 <= j < k < |undo| ensures undo[j].tramp != undo[k].tramp {
        if n > 0 { UndoAt(ops, 0); }
        UndoAt(ops, j);
        UndoAt(ops, k);
        assert ops[n - 1 - k] in ops && ops[n - 1 - j] in ops && ops[n - 1 - k] != ops[n - 1 - j];
        assert !Clash(ops[n - 1 - k], ops[n - 1 - j]);
      }
    }
  }

  /** Two removals of one hook. */
  lemma TwiceAgain(ops: seq<Op>, on: set<int>, t: int)
    requires |ops| == 2 && ops[0] == ops[1] && ops[0].isRemove && ops[0].tramp == t
    ensures Again(ops, true) == {t} && (on + Added(ops)) - Gone(ops) == on - {t}
  {
    assert ops[..1] == [ops[0]] && [ops[0]][..0] == [];
    assert ops[0] in ops[..1];
    assert Again(ops[..1], true) == {};
    assert ops[0] in ops;
  }

  lemma OnePointer(ops: seq<Op>, ptrs: map<int, int>, ptr: int, target: int)
    requires |ops| == 1 && !ops[0].isRemove && ops[0].ptr == ptr && ops[0].target == target
    ensures PointersAfter(PointersAfter(ptrs, ops), Undo(ops)) == ptrs[ptr := target]
  {
    var undo := Op(true, ptr, target, ops[0].tramp);
    assert ops[1..] == [] && ops[..0] == [] && Undo(ops) == [undo] + [];
    assert Undo(ops)[0] == undo && Undo(ops)[1..] == [];
    assert PointersAfter(ptrs, ops) == PointersAfter(ptrs[ptr := ops[0].tramp], []);
    assert PointersAfter(PointersAfter(ptrs, ops), Undo(ops)) == PointersAfter(PointersAfter(ptrs, ops)[ptr := target], []);
  }

  /** A detour that reads none of the bytes written is followed to where it was. */
  lemma DetourKept(code: Code, ops: seq<Op>, tramps: map<int, Trampoline>, hook: int)
    requires forall o, x | o in ops && x in SkipReads(code, hook) :: !(o.target <= x < o.target + |NewBytes(o, tramps)|)
    ensures Skip(CodeAfter(code, ops, tramps), hook) == Skip(code, hook)
  {
    var code' := CodeAfter(code, ops, tramps);
    CodeAfterKeys(code, ops, tramps);
    forall x | x in SkipReads(code, hook) && x in code ensures code'[x] == code[x] {
      CodeElsewhereAfter(code, ops, tramps, x);
    }
    SameSkip(code, code', hook);
  }

  /** With one operation, there is one function to lose its first byte. */
  lemma LostOne(ops: seq<Op>, code: Code, dec: Decoder, target: int)
    requires |ops| == 1 && ops[0].target == target && Mapped(code, target, READ_SIZE)
    ensures Zeroed(code, Lost(ops, code, dec)) == Unhooked(code, target, dec)
  {
    assert ops[0] in ops;
    assert Lost(ops, code, dec) == if Spoils(Read(code, target, READ_SIZE), dec) then {target} else {};
  }

  // ------------------------------------------------------- the bytes after an undo

  /** Functions about to be hooked, as they are before. */
  ghost predicate Pristine(code: Code, own: Code, sites: map<int, Site>, on: set<int>, ops: seq<Op>, tramps: map<int, Trampoline>,
                            space: set<int>, remain: map<int, int>, table: Table) {
    && own.Keys == space && CodeOk(code, own, sites, on) && AllApart(sites) && SitesOk(sites, space, tramps, remain, table)
    && OpsOk(ops, sites, on) && (forall o | o in ops :: !o.isRemove)
    && ReadsOk(sites, own, Added(ops)) && AsRead(ops, sites, code)
  }

  /** Where each operation writes, coming or going. */
  lemma CoversSite(o: Op, sites: map<int, Site>, on: set<int>, tramps: map<int, Trampoline>, space: set<int>, remain: map<int, int>,
                   table: Table, x: int)
    requires OpOk(o, sites, on) && SitesOk(sites, space, tramps, remain, table)
    ensures Covers(Op(true, o.ptr, o.target, o.tramp), x, tramps) <==> In(x, sites[o.tramp])
  {
    assert SiteOk(o.tramp, sites[o.tramp], space, tramps, remain, table);
  }

  /** A byte of a function that has been hooked and unhooked. */
  lemma ByteInOp(code: Code, own: Code, sites: map<int, Site>, on: set<int>, ops: seq<Op>, tramps: map<int, Trampoline>,
                 space: set<int>, remain: map<int, int>, table: Table, dec: Decoder, o: Op, x: int)
    requires IsX64(table, dec) && AllApart(sites) && AllLong(sites) && SitesOk(sites, space, tramps, remain, table)
    requires OpsOk(ops, sites, on) && AsRead(ops, sites, code) && forall p | p in ops :: !p.isRemove
    requires o in ops && o.tramp in sites && In(x, sites[o.tramp]) && ReadOk(sites[o.tramp], own)
    ensures x in own && OwnAfter(own, Undo(ops), tramps)[x] == if x in Lost(ops, code, dec) then 0 else own[x]
  {
    assert OpOk(o, sites, on);
    UndoWrites(own, sites, on, tramps, space, remain, table, dec, o, x);
    UndoIsOwn(own, sites, on, ops, tramps, space, remain, table, o, x);
    LostHere(code, sites, on, ops, dec, o, x);
  }

  /** What is written there is the program's. */
  lemma UndoIsOwn(own: Code, sites: map<int, Site>, on: set<int>, ops: seq<Op>, tramps: map<int, Trampoline>, space: set<int>,
                  remain: map<int, int>, table: Table, o: Op, x: int)
    requires AllApart(sites) && SitesOk(sites, space, tramps, remain, table) && OpsOk(ops, sites, on) && x in own
    requires (forall p | p in ops :: !p.isRemove) && o in ops && o.tramp in sites && In(x, sites[o.tramp])
    ensures var undo := Op(true, o.ptr, o.target, o.tramp);
            Covers(undo, x, tramps) && OwnAfter(own, Undo(ops), tramps)[x] == NewBytes(undo, tramps)[x - o.target]
  {
    OnlyCover(sites, on, ops, tramps, space, remain, table, o, x);
    OwnCovered(own, Undo(ops), tramps, Op(true, o.ptr, o.target, o.tramp), x);
  }

  /** What taking the hook off writes there. */
  lemma UndoWrites(own: Code, sites: map<int, Site>, on: set<int>, tramps: map<int, Trampoline>, space: set<int>,
                   remain: map<int, int>, table: Table, dec: Decoder, o: Op, x: int)
    requires IsX64(table, dec) && SitesOk(sites, space, tramps, remain, table) && OpOk(o, sites, on)
    requires ReadOk(sites[o.tramp], own) && In(x, sites[o.tramp])
    ensures var undo := Op(true, o.ptr, o.target, o.tramp);
            && Covers(undo, x, tramps) && x in own
            && NewBytes(undo, tramps)[x - o.target] == if x == o.target && Spoils(sites[o.tramp].read, dec) then 0 else own[x]
  {
    assert SiteOk(o.tramp, sites[o.tramp], space, tramps, remain, table);
    Written(o.tramp, sites[o.tramp], own, space, tramps, remain, table, dec, x);
  }

  /** No other operation writes there. */
  lemma OnlyCover(sites: map<int, Site>, on: set<int>, ops: seq<Op>, tramps: map<int, Trampoline>, space: set<int>,
                  remain: map<int, int>, table: Table, o: Op, x: int)
    requires AllApart(sites) && SitesOk(sites, space, tramps, remain, table) && OpsOk(ops, sites, on)
    requires (forall p | p in ops :: !p.isRemove) && o in ops && o.tramp in sites && In(x, sites[o.tramp])
    ensures var undo := Op(true, o.ptr, o.target, o.tramp);
            && undo in Undo(ops) && Covers(undo, x, tramps)
            && forall p | p in Undo(ops) && Covers(p, x, tramps) :: p == undo
  {
    UndoAll(ops);
    assert OpOk(o, sites, on);
    CoversSite(o, sites, on, tramps, space, remain, table, x);
    forall p | p in Undo(ops) && Covers(p, x, tramps) ensures p == Op(true, o.ptr, o.target, o.tramp) {
      var p' := Op(false, p.ptr, p.target, p.tramp);
      assert p' in ops && OpOk(p', sites, on);
      CoversSite(p', sites, on, tramps, space, remain, table, x);
      assert Apart(sites[p.tramp], sites[o.tramp]) || p.tramp == o.tramp;
    }
  }

  /** No other function starts at x. */
  lemma LostHere(code: Code, sites: map<int, Site>, on: set<int>, ops: seq<Op>, dec: Decoder, o: Op, x: int)
    requires OpsOk(ops, sites, on) && AllApart(sites) && AllLong(sites) && AsRead(ops, sites, code)
    requires (forall p | p in ops :: !p.isRemove) && o in ops && o.tramp in sites && In(x, sites[o.tramp])
    ensures x in Lost(ops, code, dec) <==> x == o.target && Spoils(sites[o.tramp].read, dec)
  {
    forall p | p in ops && p.target == x ensures p.tramp == o.tramp {
      assert OpOk(p, sites, on) && OpOk(o, sites, on) && sites[p.tramp].n >= SIZE_OF_JMP;
      assert Apart(sites[p.tramp], sites[o.tramp]) || p.tramp == o.tramp;
    }
  }

  /** One of another function. */
  lemma ByteNotInOp(code: Code, own: Code, sites: map<int, Site>, on: set<int>, ops: seq<Op>, tramps: map<int, Trampoline>,
                    space: set<int>, remain: map<int, int>, table: Table, dec: Decoder, x: int)
    requires Pristine(code, own, sites, on, ops, tramps, space, remain, table)
    requires x in own && forall o | o in ops && o.tramp in sites :: !In(x, sites[o.tramp])
    ensures OwnAfter(own, Undo(ops), tramps)[x] == own[x] && x !in Lost(ops, code, dec)
  {
    UndoAll(ops);
    forall p | p in Undo(ops) ensures !Covers(p, x, tramps) {
      var p' := Op(false, p.ptr, p.target, p.tramp);
      assert p' in ops && OpOk(p', sites, on);
      CoversSite(p', sites, on, tramps, space, remain, table, x);
    }
    OwnElsewhere(own, Undo(ops), tramps, x);
    forall o | o in ops ensures o.target != x { assert OpOk(o, sites, on) && sites[o.tramp].n >= SIZE_OF_JMP; }
  }

  /** A byte of a hook that is on is at no site of those to be added. */
  lemma NotInOps(sites: map<int, Site>, on: set<int>, ops: seq<Op>, t: int, x: int)
    requires AllApart(sites) && OpsOk(ops, sites, on) && (forall o | o in ops :: !o.isRemove)
    requires t in on && t in sites && In(x, sites[t])
    ensures forall o | o in ops && o.tramp in sites :: !In(x, sites[o.tramp])
  {
    forall o | o in ops && o.tramp in sites ensures !In(x, sites[o.tramp]) {
      assert OpOk(o, sites, on) && Apart(sites[o.tramp], sites[t]);
    }
  }

  /** A byte of code, in the end. */
  lemma ByteBack(code: Code, own: Code, sites: map<int, Site>, on: set<int>, code': Code, own': Code, sites': map<int, Site>,
                 ops: seq<Op>, tramps: map<int, Trampoline>, space: set<int>, remain: map<int, int>, table: Table,
                 dec: Decoder, x: int)
    requires IsX64(table, dec) && Pristine(code, own, sites, on, ops, tramps, space, remain, table)
    requires CodeOk(code', own', sites', on) && (forall t | t in on :: sites'[t] == sites[t])
    requires own' == OwnAfter(own, Undo(ops), tramps) && x in code
    ensures x in code' && code'[x] == if x in Lost(ops, code, dec) then 0 else code[x]
  {
    assert ByteOk(x, code[x], own[x], sites, on) && ByteOk(x, code'[x], own'[x], sites', on);
    if t :| t in on && In(x, sites[t]) {
      NotInOps(sites, on, ops, t, x);
      ByteNotInOp(code, own, sites, on, ops, tramps, space, remain, table, dec, x);
    } else if o :| o in ops && o.tramp in sites && In(x, sites[o.tramp]) {
      assert o.tramp in Added(ops) && ReadOk(sites[o.tramp], own);
      ByteInOp(code, own, sites, on, ops, tramps, space, remain, table, dec, o, x);
    } else {
      ByteNotInOp(code, own, sites, on, ops, tramps, space, remain, table, dec, x);
    }
  }

  /** The bytes after hooks have been put on and taken off. */
  lemma BytesBack(code: Code, own: Code, sites: map<int, Site>, on: set<int>, code': Code, own': Code, sites': map<int, Site>,
                  ops: seq<Op>, tramps: map<int, Trampoline>, space: set<int>, remain: map<int, int>, table: Table, dec: Decoder)
    requires IsX64(table, dec) && Pristine(code, own, sites, on, ops, tramps, space, remain, table)
    requires CodeOk(code', own', sites', on) && (forall t | t in on :: sites'[t] == sites[t])
    requires own' == OwnAfter(own, Undo(ops), tramps)
    ensures code' == Zeroed(code, Lost(ops, code, dec))
  {
    var back := Zeroed(code, Lost(ops, code, dec));
    forall x | x in code ensures x in code' && code'[x] == back[x] {
      ByteBack(code, own, sites, on, code', own', sites', ops, tramps, space, remain, table, dec, x);
    }
    assert code'.Keys == back.Keys;
  }

  /** What a commit of additions has made of sites, hooks and pointers. */
  ghost predicate AllOn(sites: map<int, Site>, on: set<int>, ptrs: map<int, int>,
                        sites0: map<int, Site>, on0: set<int>, ptrs0: map<int, int>, ops: seq<Op>) {
    && Coherent(ops) && on0 !! Added(ops) && (forall o | o in ops :: !o.isRemove)
    && on == on0 + Added(ops) && ptrs == PointersAfter(ptrs0, ops)
    && forall t | t in on :: t in sites0 && t in sites && sites[t] == sites0[t]
  }

  /** An operation to add a hook whose detour is followed to where it was. */
  predicate Detour(o: Op, hook: int, code: Code, tramps: map<int, Trampoline>) {
    !o.isRemove && o.ptr != 0 && o.tramp in tramps && tramps[o.tramp].xhook == Skip(code, hook)
  }

  /** It has been added. */
  predicate Detachable(o: Op, hook: int, code: Code, sites: map<int, Site>, on: set<int>, tramps: map<int, Trampoline>) {
    Detour(o, hook, code, tramps) && o.tramp in on && OpSite(o, sites)
  }

  /** Hooks that have been put on are where they were to be. */
  lemma NowOn(ops: seq<Op>, hooks: seq<int>, code: Code, tramps: map<int, Trampoline>,
              sites: map<int, Site>, on: set<int>, sites': map<int, Site>, on': set<int>)
    requires OpsOk(ops, sites, on) && on' == on + Added(ops) && on' <= sites'.Keys
    requires |hooks| == |ops| && forall k | 0 <= k < |ops| :: Detour(ops[k], hooks[k], code, tramps)
    requires forall t | t in on' :: t in sites && sites'[t] == sites[t]
    ensures forall k | 0 <= k < |ops| :: Detachable(ops[k], hooks[k], code, sites', on', tramps)
  {
    forall k | 0 <= k < |ops| ensures Detachable(ops[k], hooks[k], code, sites', on', tramps) {
      assert Detour(ops[k], hooks[k], code, tramps);
      assert ops[k] in ops && OpOk(ops[k], sites, on) && ops[k].tramp in Added(ops);
    }
  }

  lemma NothingPending(sites: map<int, Site>, on: set<int>, own: Code, code: Code, ptrs: map<int, int>)
    ensures OpsOk([], sites, on) && Added([]) == {} && Followed([], code, ptrs) && AsRead([], sites, code) && ReadsOk(sites, own, {})
  {
  }

  lemma AddedNone(ops: seq<Op>)
    requires forall o | o in ops :: !o.isRemove
    ensures Added(ops) == {} <==> ops == []
  {
    if ops != [] { assert ops[0] in ops && ops[0].tramp in Added(ops); }
  }

  lemma NothingGone(ops: seq<Op>)
    requires forall o | o in ops :: !o.isRemove
    ensures Gone(ops) == {}
  {
  }

  /** Pointers after hooks are put on and taken off lead to where they were followed
      to, and are all as before if and only if they led there before. */
  lemma PointersBack(code: Code, ptrs: map<int, int>, ops: seq<Op>)
    requires Coherent(ops) && Followed(ops, code, ptrs) && forall o | o in ops :: !o.isRemove
    ensures var after := PointersAfter(PointersAfter(ptrs, ops), Undo(ops));
            && (forall o | o in ops :: o.ptr in ptrs && o.ptr in after && after[o.ptr] == Skip(code, ptrs[o.ptr]))
            && (forall p | p in ptrs && (forall o | o in ops :: o.ptr != p) :: p in after && after[p] == ptrs[p])
            && after.Keys == ptrs.Keys
            && (after == ptrs <==> forall o | o in ops :: o.ptr in ptrs && Skip(code, ptrs[o.ptr]) == ptrs[o.ptr])
  {
    var on, after := PointersAfter(ptrs, ops), PointersAfter(PointersAfter(ptrs, ops), Undo(ops));
    CoherentPointers(ops);
    PointerAfter(ptrs, ops);
    UndoCoherent(ops);
    PointerAfter(on, Undo(ops));
    UndoAll(ops);
    forall o | o in ops ensures o.ptr in ptrs && o.ptr in after && after[o.ptr] == Skip(code, ptrs[o.ptr]) {
      assert Op(true, o.ptr, o.target, o.tramp) in Undo(ops);
    }
    forall p | p in ptrs && (forall o | o in ops :: o.ptr != p) ensures p in after && after[p] == ptrs[p] {
      assert p in on && on[p] == ptrs[p];
      forall o | o in Undo(ops) ensures o.ptr != p { assert Op(false, o.ptr, o.target, o.tramp) in ops; }
    }
    SameKeys(ptrs, ops);
    SamePointers(code, ptrs, ops, after);
  }

  /** Pointers that are followed to themselves are kept, and no others. */
  lemma SamePointers(code: Code, ptrs: map<int, int>, ops: seq<Op>, after: map<int, int>)
    requires after.Keys == ptrs.Keys
    requires forall o | o in ops :: o.ptr in ptrs && o.ptr in after && after[o.ptr] == Skip(code, ptrs[o.ptr])
    requires forall p | p in ptrs && (forall o | o in ops :: o.ptr != p) :: p in after && after[p] == ptrs[p]
    ensures after == ptrs <==> forall o | o in ops :: o.ptr in ptrs && Skip(code, ptrs[o.ptr]) == ptrs[o.ptr]
  {
    if forall o | o in ops :: Skip(code, ptrs[o.ptr]) == ptrs[o.ptr] {
      forall p | p in ptrs ensures after[p] == ptrs[p] { }
    }
  }

  lemma SameKeys(ptrs: map<int, int>, ops: seq<Op>)
    requires Coherent(ops) && (forall o | o in ops :: !o.isRemove && o.ptr in ptrs)
    ensures PointersAfter(PointersAfter(ptrs, ops), Undo(ops)).Keys == ptrs.Keys
  {
    CoherentPointers(ops);
    PointerAfter(ptrs, ops);
    UndoCoherent(ops);
    PointerAfter(PointersAfter(ptrs, ops), Undo(ops));
    UndoAll(ops);
    forall o | o in Undo(ops) ensures o.ptr in ptrs { assert Op(false, o.ptr, o.target, o.tramp) in ops; }
  }

  lemma UndoCoherent(ops: seq<Op>)
    requires Coherent(ops) && forall o | o in ops :: !o.isRemove
    ensures OnePerPointer(Undo(ops))
  {
    UndoAll(ops);
    forall o, p | o in Undo(ops) && p in Undo(ops) && o.ptr == p.ptr ensures o == p {
      var o', p' := Op(false, o.ptr, o.target, o.tramp), Op(false, p.ptr, p.target, p.tramp);
      assert o' in ops && p' in ops && Clash(o', p');
    }
  }

  lemma Disjoint(ops: seq<Op>, sites: map<int, Site>, on: set<int>)
    requires OpsOk(ops, sites, on)
    ensures on !! Added(ops) && Gone(ops) <= on && Added(ops) !! Gone(ops)
    ensures (on + Added(ops)) == ((on + Added(ops)) - Gone(ops)) + Gone(ops)
  {
    forall o | o in ops ensures OpOk(o, sites, on) { }
  }

  /** One more removal, which may be there already. */
  lemma AddRemoval(ops: seq<Op>, sites: map<int, Site>, on: set<int>, o: Op)
    requires OpsOk(ops, sites, on) && o.isRemove && OpOk(o, sites, on) && AllApart(sites)
    ensures OpsOk([o] + ops, sites, on) && Added([o] + ops) == Added(ops)
  {
    var ops' := [o] + ops;
    forall p | p in ops && p.tramp != o.tramp ensures p.ptr != o.ptr {
      assert OpOk(p, sites, on) && Apart(sites[p.tramp], sites[o.tramp]);
    }
    assert forall p, q | p in ops && q in ops && Clash(p, q) :: p == q;
    forall p | p in ops && p.tramp == o.tramp ensures p == o { assert OpOk(p, sites, on); }
    forall j, k | 0 <= j < k < |ops'| && !ops'[j].isRemove ensures ops'[j] != ops'[k] {
      assert ops'[j] == ops[j - 1] && ops'[k] == ops[k - 1];
    }
  }

  lemma SwitchedPointers(sites: map<int, Site>, on: set<int>, ptrs: map<int, int>, o: Op)
    requires AllApart(sites) && on <= sites.Keys && PointersOk(sites, on, ptrs) && OpSite(o, sites)
    ensures o.isRemove ==> PointersOk(sites, on - {o.tramp}, ptrs[o.ptr := o.target])
    ensures !o.isRemove ==> PointersOk(sites, on + {o.tramp}, ptrs[o.ptr := o.tramp])
  {
    forall t | t in on && t != o.tramp ensures sites[t].ptr != o.ptr { assert Apart(sites[t], sites[o.tramp]); }
  }

  /** The regions that trampolines are in. */
  function Regions(ts: set<int>): set<int> { set t | t in ts :: RegionOf(t) }

  lemma PickedNext(ops: seq<Op>, i: nat, removals: bool)
    requires i < |ops|
    ensures Picked(ops[..i + 1], removals) == Picked(ops[..i], removals) + (if ops[i].isRemove == removals then {ops[i].tramp} else {})
    ensures ops[i].isRemove == removals ==> ops[i].tramp in Picked(ops, removals)
    ensures Regions(Again(ops[..i + 1], removals))
         == Regions(Again(ops[..i], removals))
            + if ops[i].isRemove == removals && ops[i].tramp in Picked(ops[..i], removals) then {RegionOf(ops[i].tramp)} else {}
  {
    assert ops[..i + 1] == ops[..i] + [ops[i]];
    assert ops[..i + 1][..i] == ops[..i];
    assert ops[i] in ops;
  }

  lemma SitesNext(ops: seq<Op>, i: nat, removals: bool, sites0: map<int, Site>, sites: map<int, Site>)
    requires i < |ops| && sites == sites0 - Picked(ops[..i], removals)
    ensures (if ops[i].isRemove == removals then sites - {ops[i].tramp} else sites) == sites0 - Picked(ops[..i + 1], removals)
  {
    PickedNext(ops, i, removals);
  }

  /** How far the last loop has got: the trampolines still in use, the regions no
      longer in order, and whether any has been given back. */
  ghost predicate Finished(ops: seq<Op>, i: nat, removals: bool, on: set<int>, keys: set<int>, knots0: set<int>, knots: set<int>, freed: bool) {
    && i <= |ops|
    && keys == on + (Picked(ops, removals) - Picked(ops[..i], removals))
    && knots == knots0 + Regions(Again(ops[..i], removals))
    && (freed <==> Picked(ops[..i], removals) != {})
  }

  lemma NoneFinished(ops: seq<Op>, removals: bool, on: set<int>, knots: set<int>)
    ensures Finished(ops, 0, removals, on, on + Picked(ops, removals), knots, knots, false)
  {
    assert ops[..0] == [];
    assert Regions({}) == {};
  }

  lemma OneFinished(ops: seq<Op>, i: nat, removals: bool, on: set<int>, keys: set<int>, knots0: set<int>, knots: set<int>, freed: bool)
    requires i < |ops| && Finished(ops, i, removals, on, keys, knots0, knots, freed) && on !! Picked(ops, removals)
    ensures ops[i].isRemove != removals ==> Finished(ops, i + 1, removals, on, keys, knots0, knots, freed)
    ensures var t := ops[i].tramp;
            ops[i].isRemove == removals ==>
              Finished(ops, i + 1, removals, on, keys - {t}, knots0,
                       knots + if t in Picked(ops[..i], removals) then {RegionOf(t)} else {}, true)
  {
    PickedNext(ops, i, removals);
    if ops[i].isRemove == removals {
      ReleasedNext(ops, i, removals, on, keys);
    }
  }

  lemma AllFinished(ops: seq<Op>, removals: bool, on: set<int>, keys: set<int>, knots0: set<int>, knots: set<int>, freed: bool)
    requires Finished(ops, |ops|, removals, on, keys, knots0, knots, freed)
    ensures keys == on && knots == knots0 + Regions(Again(ops, removals)) && (freed <==> Picked(ops, removals) != {})
  {
    assert ops[..|ops|] == ops;
  }

  /** The trampolines left in use after one more is given back. */
  lemma ReleasedNext(ops: seq<Op>, i: nat, removals: bool, on: set<int>, keys: set<int>)
    requires i < |ops| && ops[i].isRemove == removals && on !! Picked(ops, removals)
    requires keys == on + (Picked(ops, removals) - Picked(ops[..i], removals))
    ensures var t := ops[i].tramp;
            && t !in on && (t in keys <==> t !in Picked(ops[..i], removals))
            && keys - {t} == on + (Picked(ops, removals) - Picked(ops[..i + 1], removals))
  {
    PickedNext(ops, i, removals);
  }

  lemma AgainIsPicked(ops: seq<Op>, removals: bool)
    ensures Again(ops, removals) <= Picked(ops, removals)
  {
    forall t | t in Again(ops, removals) ensures t in Picked(ops, removals) {
      AgainIsTwice(ops, removals, t);
      var j, k :| 0 <= j < k < |ops| && ops[j].isRemove == ops[k].isRemove == removals && ops[j].tramp == ops[k].tramp == t;
      assert ops[j] in ops;
    }
  }

  /** The next operation finds its site as a commit needs it. */
  lemma NextOp(ops: seq<Op>, i: nat, sites: map<int, Site>, on: set<int>, now: set<int>)
    requires i < |ops| && OpsOk(ops, sites, on) && now == (on + Added(ops[..i])) - Gone(ops[..i])
    ensures var o := ops[i];
            && OpSite(o, sites) && (!o.isRemove ==> o.tramp !in now)
            && (if o.isRemove then now - {o.tramp} else now + {o.tramp}) == (on + Added(ops[..i + 1])) - Gone(ops[..i + 1])
  {
    var o := ops[i];
    assert o in ops && OpOk(o, sites, on);
    assert ops[..i + 1] == ops[..i] + [o];
    forall p | p in ops[..i] ensures p in ops && (p.tramp == o.tramp ==> p == o && o.isRemove) {
      var j :| 0 <= j < i && ops[j] == p;
      assert p.tramp == o.tramp ==> Clash(p, o);
    }
  }

  /** How far the first loop has got. */
  ghost predicate Applied(ops: seq<Op>, i: nat, tramps: map<int, Trampoline>, code0: Code, own0: Code, ptrs0: map<int, int>, on0: set<int>,
                          code: Code, own: Code, ptrs: map<int, int>, on: set<int>) {
    && i <= |ops| && on == (on0 + Added(ops[..i])) - Gone(ops[..i])
    && PointersAfter(ptrs0, ops) == PointersAfter(ptrs, ops[i..])
    && CodeAfter(code0, ops, tramps) == CodeAfter(code, ops[i..], tramps)
    && OwnAfter(own0, ops, tramps) == OwnAfter(own, ops[i..], tramps)
  }

  lemma NoneApplied(ops: seq<Op>, tramps: map<int, Trampoline>, code: Code, own: Code, ptrs: map<int, int>, on: set<int>)
    ensures Applied(ops, 0, tramps, code, own, ptrs, on, code, own, ptrs, on)
  {
    assert ops[0..] == ops && ops[..0] == [];
  }

  lemma OneApplied(ops: seq<Op>, i: nat, tramps: map<int, Trampoline>, code0: Code, own0: Code, ptrs0: map<int, int>, on0: set<int>,
                   code: Code, own: Code, ptrs: map<int, int>, on: set<int>)
    requires i < |ops| && Applied(ops, i, tramps, code0, own0, ptrs0, on0, code, own, ptrs, on)
    requires var o := ops[i];
             (if o.isRemove then on - {o.tramp} else on + {o.tramp}) == (on0 + Added(ops[..i + 1])) - Gone(ops[..i + 1])
    ensures var o := ops[i];
            Applied(ops, i + 1, tramps, code0, own0, ptrs0, on0, Patch(code, o.target, NewBytes(o, tramps)),
                    if o.isRemove then Patch(own, o.target, NewBytes(o, tramps)) else own,
                    ptrs[o.ptr := if o.isRemove then o.target else o.tramp],
                    if o.isRemove then on - {o.tramp} else on + {o.tramp})
  {
    assert ops[i..][0] == ops[i] && ops[i..][1..] == ops[i + 1..];
  }

  lemma AllApplied(ops: seq<Op>, tramps: map<int, Trampoline>, code0: Code, own0: Code, ptrs0: map<int, int>, on0: set<int>,
                   code: Code, own: Code, ptrs: map<int, int>, on: set<int>)
    requires Applied(ops, |ops|, tramps, code0, own0, ptrs0, on0, code, own, ptrs, on)
    ensures on == (on0 + Added(ops)) - Gone(ops) && ptrs == PointersAfter(ptrs0, ops)
    ensures code == CodeAfter(code0, ops, tramps) && own == OwnAfter(own0, ops, tramps)
  {
    assert ops[..|ops|] == ops && ops[|ops|..] == [];
  }

  /** Which regions are left with a knot. */
  lemma KnotsLeft(ops: seq<Op>, on0: set<int>, on: set<int>, retain: bool, regions0: seq<int>, regions: seq<int>, knots: set<int>)
    requires on == (on0 + Added(ops)) - Gone(ops)
    requires forall t | t in Again(ops, true) :: RegionOf(t) in regions0
    requires forall b | b in regions0 :: b in knots <==> b in Regions(Again(ops, true))
    requires if Again(ops, true) != {} && !retain then forall b :: b in regions <==> b in regions0 && InUse(b, on)
             else regions == regions0 || Again(ops, true) == {}
    requires forall b | b in regions :: b in regions0
    ensures (forall b | b in regions :: b !in knots) <==> KeepsPool(ops, on0, retain)
  {
  }

  lemma Dropped(code: Code, own: Code, space: set<int>, sites: map<int, Site>, on: set<int>, tramps: map<int, Trampoline>, remain: map<int, int>,
                table: Table, t: int, ptrs: map<int, int>)
    requires CodeOk(code, own, sites, on) && AllApart(sites) && SitesOk(sites, space, tramps, remain, table) && PointersOk(sites, on, ptrs)
    requires t !in on && ReadsOk(sites, own, on)
    ensures ReadsOk(sites - {t}, own, on)
    ensures CodeOk(code, own, sites - {t}, on) && AllApart(sites - {t}) && PointersOk(sites - {t}, on, ptrs)
    ensures SitesOk(sites - {t}, space, tramps, remain, table)
  {
    var sites' := sites - {t};
    SameOn(code, own, sites, sites', on);
    forall u | u in sites' ensures SiteOk(u, sites'[u], space, tramps, remain, table) {
      assert SiteOk(u, sites[u], space, tramps, remain, table);
    }
  }

  lemma RemainsElsewhere(sites: map<int, Site>, space: set<int>, tramps: map<int, Trampoline>, remain: map<int, int>, table: Table, found: int)
    requires SitesOk(sites, space, tramps, remain, table) && forall x | x in space :: RegionOf(x) != found
    ensures forall t | t in sites :: t in remain && RegionOf(remain[t]) != found
  {
    forall t | t in sites ensures t in remain && RegionOf(remain[t]) != found {
      assert SiteOk(t, sites[t], space, tramps, remain, table);
    }
  }

  lemma FreshSite(code: Code, own: Code, space: set<int>, sites: map<int, Site>, on: set<int>, tramps: map<int, Trampoline>,
                  remain: map<int, int>, table: Table, t: int, s: Site, tramp: Trampoline)
    requires Lawful(table)
    requires CodeOk(code, own, sites, on) && own.Keys == space
    requires Mapped(code, s.target, READ_SIZE) && s.read == Read(code, s.target, READ_SIZE)
    requires (forall u | u in sites :: Apart(sites[u], s)) && SIZE_OF_JMP <= s.n == Footprint(table, s.read) < READ_SIZE
    requires 0 < s.target < MAX_ADDRESS && Lo(s.target) <= t <= Hi(s.target)
    requires IsImage(tramp.image, Copy(t, s, table), s.read[..s.n])
    ensures SiteOk(t, s, space, tramps[t := tramp], remain[t := s.target + s.n], table) && ReadOk(s, own)
    ensures s.target + s.n in space
  {
    OwnBytes(code, own, sites, on, s);
    assert Read(code, s.target, s.n) == s.read[..s.n];
    assert s.target + s.n in code;
    CodeFits(table, s.read, s.target, t);
    RestoreRead(tramp, Copy(t, s, table), s.read[..s.n]);
  }

  /** A new site, apart from the others, with its trampoline. */
  lemma AddSite(code: Code, own: Code, space: set<int>, sites: map<int, Site>, on: set<int>, tramps: map<int, Trampoline>,
                remain: map<int, int>, table: Table, t: int, s: Site, tramp: Trampoline, ptrs: map<int, int>, more: set<int>)
    requires CodeOk(code, own, sites, on) && AllApart(sites) && SitesOk(sites, space, tramps, remain, table) && PointersOk(sites, on, ptrs)
    requires t !in sites && (forall u | u in sites :: Apart(sites[u], s))
    requires SiteOk(t, s, space, tramps[t := tramp], remain[t := s.target + s.n], table) && ReadOk(s, own)
    requires ReadsOk(sites, own, on) && ReadsOk(sites, own, more)
    ensures CodeOk(code, own, sites[t := s], on) && AllApart(sites[t := s]) && PointersOk(sites[t := s], on, ptrs)
    ensures SitesOk(sites[t := s], space, tramps[t := tramp], remain[t := s.target + s.n], table)
    ensures ReadsOk(sites[t := s], own, on) && ReadsOk(sites[t := s], own, more + {t})
  {
    var sites', tramps', remain' := sites[t := s], tramps[t := tramp], remain[t := s.target + s.n];
    SameOn(code, own, sites, sites', on);
    forall u | u in sites' ensures SiteOk(u, sites'[u], space, tramps', remain', table) {
      if u != t { assert SiteOk(u, sites[u], space, tramps, remain, table); }
    }
  }

  lemma AddOp(ops: seq<Op>, sites: map<int, Site>, on: set<int>, o: Op, s: Site)
    requires OpsOk(ops, sites, on) && sites.Keys == on + Added(ops)
    requires o == Op(false, s.ptr, s.target, o.tramp) && o.tramp !in sites && (forall u | u in sites :: Apart(sites[u], s))
    ensures OpsOk([o] + ops, sites[o.tramp := s], on)
    ensures sites[o.tramp := s].Keys == on + Added([o] + ops) && Added([o] + ops) == Added(ops) + {o.tramp}
  {
    var ops', sites' := [o] + ops, sites[o.tramp := s];
    forall p | p in ops ensures OpOk(p, sites', on) && p.ptr != o.ptr && p.tramp != o.tramp {
      assert OpOk(p, sites, on) && Apart(sites[p.tramp], s);
    }
    forall j, k | 0 <= j < k < |ops'| && !ops'[j].isRemove ensures ops'[j] != ops'[k] {
      assert ops'[k] == ops[k - 1] && ops[k - 1] in ops;
      if j > 0 { assert ops'[j] == ops[j - 1]; }
    }
    assert Added(ops') == Added(ops) + {o.tramp};
  }

  /** Sites whose trampolines keep what they hold. */
  lemma SitesKept(sites: map<int, Site>, space: set<int>, tramps: map<int, Trampoline>, was: map<int, int>, now: map<int, int>, table: Table)
    requires SitesOk(sites, space, tramps, was, table)
    requires forall t | t in sites :: t in was && t in now && now[t] == was[t]
    ensures SitesOk(sites, space, tramps, now, table)
  {
    forall t | t in sites ensures SiteOk(t, sites[t], space, tramps, now, table) {
      assert SiteOk(t, sites[t], space, tramps, was, table);
    }
  }
}
