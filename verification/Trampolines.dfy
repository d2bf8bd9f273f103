/** The allocator of trampolines: regions of 64 kilobytes near the functions they
    serve, each with a list of free trampolines threaded through them. Addresses
    are numbers, and 0 is the null pointer. */
module Trampolines {
  const REGION_SIZE: int := 0x1_0000
  const TRAMPOLINE_SIZE: int := 96
  const PER_REGION: int := 681
  const REACH: int := 0x7ff8_0000
  const USER_SPACE: int := 0x8000_0000_0000
  const BREAKS: int := 0xcccc_cccc_cccc_cccc

  /** The lowest and the highest address for a trampoline of a target. */
  function Lo(target: int): int { if target > REACH then target - REACH else REGION_SIZE }

  function Hi(target: int): int {
    if target < 0xffff_ffff_8000_0000 then target + REACH else 0xffff_ffff_fff8_0000
  }

  predicate InReach(target: int, p: int) { p != 0 && Lo(target) <= p <= Hi(target) }

  /** Trampoline i of the region at base. */
  function Slot(base: int, i: int): int { base + TRAMPOLINE_SIZE * (1 + i) }

  /** Two gigabytes less half a megabyte to both sides, but not below the first region
      and not past the end of the addresses. */
  lemma Bounds(target: int, p: int)
    requires p != 0
    ensures InReach(target, p)
            <==> (if target <= 0x7ff8_0000 then 0x1_0000 <= p else target - p <= 0x7ff8_0000)
                 && (if target < 0xffff_ffff_8000_0000 then p - target <= 0x7ff8_0000 else p <= 0xffff_ffff_fff8_0000)
  {
  }

  /** Trampolines of 96 bytes lie back to back behind the region's own 96, and there is
      no room for one more than 681. */
  lemma RegionIsFull(base: int, i: nat)
    requires i < PER_REGION
    ensures Slot(base, i) == base + 96 + 96 * i && Slot(base, PER_REGION - 1) + 96 <= base + 0x1_0000 < Slot(base, PER_REGION) + 96
  {
  }

  function RegionOf(p: int): int { p - p % REGION_SIZE }

  predicate IsSlot(p: int) {
    var off := p % REGION_SIZE;
    off % TRAMPOLINE_SIZE == 0 && 1 <= off / TRAMPOLINE_SIZE <= PER_REGION
  }

  lemma SlotIsSlot(base: int, i: int)
    requires base % REGION_SIZE == 0 && 0 <= i < PER_REGION
    ensures IsSlot(Slot(base, i)) && RegionOf(Slot(base, i)) == base
    ensures base < Slot(base, i) && Slot(base, i) + TRAMPOLINE_SIZE <= base + REGION_SIZE
  {
    var off := TRAMPOLINE_SIZE * (1 + i);
    assert (base + off) % REGION_SIZE == off;
  }

  function IndexOf(p: int): int { (p % REGION_SIZE) / TRAMPOLINE_SIZE - 1 }

  lemma SlotAtIndex(p: int)
    requires IsSlot(p)
    ensures 0 <= IndexOf(p) < PER_REGION && p == Slot(RegionOf(p), IndexOf(p)) && RegionOf(p) % REGION_SIZE == 0
  {
    var off := p % REGION_SIZE;
    assert off == TRAMPOLINE_SIZE * (off / TRAMPOLINE_SIZE);
    assert (p - off) % REGION_SIZE == 0;
  }

  /** The jump over a target's first bytes reaches the code in its trampoline. */
  lemma JumpFits(target: int, t: int)
    requires 0 <= target < 0x1_0000_0000_0000_0000 && Lo(target) <= t <= Hi(target)
    ensures -REACH <= t - target <= REACH
    ensures -0x8000_0000 <= (t + 88) - (target + 5) < 0x8000_0000
  {
  }

  // ------------------------------------------------------------------ the free list

  function Head(list: seq<int>): int { if list == [] then 0 else list[0] }

  /** Address k of list leads to the next one. */
  predicate Linked(list: seq<int>, k: int, link: map<int, int>)
    requires 0 <= k < |list|
  {
    list[k] in link && link[list[k]] == (if k + 1 < |list| then list[k + 1] else 0)
  }

  /** The addresses of list are linked in order through link, from head on. */
  predicate Chain(head: int, list: seq<int>, link: map<int, int>) {
    head == Head(list) && forall k | 0 <= k < |list| :: Linked(list, k, link)
  }

  predicate Distinct(list: seq<int>) { forall j, k | 0 <= j < k < |list| :: list[j] != list[k] }

  lemma Popped(head: int, list: seq<int>, link: map<int, int>)
    requires Chain(head, list, link) && list != []
    ensures head in link && Chain(link[head], list[1..], link)
  {
    assert Linked(list, 0, link);
    var rest := list[1..];
    forall k | 0 <= k < |rest| ensures Linked(rest, k, link) { assert Linked(list, k + 1, link); }
  }

  lemma Pushed(head: int, list: seq<int>, link: map<int, int>, p: int)
    requires Chain(head, list, link) && p !in list
    ensures Chain(p, [p] + list, link[p := head])
  {
    var link', list' := link[p := head], [p] + list;
    forall k | 0 <= k < |list'| ensures Linked(list', k, link') {
      if k > 0 { assert Linked(list, k - 1, link) && list[k - 1] in list; }
    }
  }

  lemma Untouched(head: int, list: seq<int>, link: map<int, int>, p: int, to: int)
    requires Chain(head, list, link) && p !in list
    ensures Chain(head, list, link[p := to])
  {
    var link' := link[p := to];
    forall k | 0 <= k < |list| ensures Linked(list, k, link') { assert Linked(list, k, link) && list[k] in list; }
  }

  /** The slots from i on, which a new region's list has in this order. */
  function SlotsFrom(base: int, i: int): (r: seq<int>)
    requires 0 <= i <= PER_REGION
    ensures |r| == PER_REGION - i
    ensures forall k | 0 <= k < |r| :: r[k] == Slot(base, i + k)
  {
    seq(PER_REGION - i, k => Slot(base, i + k))
  }

  // ------------------------------------------------------------------------ the pool

  /** Everything that can be said of one region. */
  ghost predicate RegionOk(base: int, head: int, list: seq<int>, link: map<int, int>, live: set<int>) {
    && 0 < base < USER_SPACE && base % REGION_SIZE == 0
    && Chain(head, list, link) && Distinct(list)
    && (forall p | p in list :: IsSlot(p) && RegionOf(p) == base && p !in live)
    && (forall i | 0 <= i < PER_REGION :: SlotOk(base, i, list, link, live))
  }

  /** A slot is live or free, but for the first two, which are never given out. */
  ghost predicate SlotOk(base: int, i: int, list: seq<int>, link: map<int, int>, live: set<int>) {
    var p := Slot(base, i);
    && p in link
    && (p in live || p in list || (i < 2 && link[p] == 0))
    && (i < 2 ==> p !in live && p !in list)
  }

  // ---------------------------------------------------------- a region with a knot

  /** Links that go round: from head no link ever leads to null. */
  ghost predicate Knot(base: int, head: int, link: map<int, int>, ring: set<int>) {
    head in ring && forall p | p in ring :: p != 0 && RegionOf(p) == base && p in link && link[p] in ring
  }

  /** No list can be read off links that go round. */
  lemma KnotIsNoChain(base: int, head: int, link: map<int, int>, ring: set<int>, list: seq<int>)
    requires Knot(base, head, link, ring)
    ensures !Chain(head, list, link)
  {
    if Chain(head, list, link) { KnotGoesOn(base, head, link, ring, list, |list|); }
  }

  lemma {:induction false} KnotGoesOn(base: int, head: int, link: map<int, int>, ring: set<int>, list: seq<int>, k: nat)
    requires Knot(base, head, link, ring) && Chain(head, list, link) && k <= |list|
    ensures k < |list| && list[k] in ring
  {
    if k > 0 {
      KnotGoesOn(base, head, link, ring, list, k - 1);
      assert Linked(list, k - 1, link);
      var p := list[k - 1];
      assert p in ring;
      assert p in link && link[p] in ring;
      var next := link[p];
      assert next in ring;
      assert next != 0;
    }
  }

  /** Giving back a trampoline that is on the free list already ties the knot. */
  lemma KnotTied(base: int, head: int, list: seq<int>, link: map<int, int>, p: int) returns (ring: set<int>)
    requires Chain(head, list, link) && p in list && base > 0 && forall q | q in list :: RegionOf(q) == base
    ensures Knot(base, p, link[p := head], ring)
  {
    var k :| 0 <= k < |list| && list[k] == p;
    ring := set j | 0 <= j <= k :: list[j];
    forall q | q in ring ensures q != 0 && RegionOf(q) == base && q in link && link[p := head][q] in ring {
      var j :| 0 <= j <= k && list[j] == q;
      assert Linked(list, j, link) && list[j] in list;
      assert list[0] in ring;
      if q != p { assert list[j + 1] in ring; }
    }
  }

  /** Nothing given back undoes it. */
  lemma KnotStays(base: int, head: int, link: map<int, int>, ring: set<int>, p: int)
    requires Knot(base, head, link, ring) && RegionOf(p) == base > 0
    ensures Knot(base, p, link[p := head], ring + {p})
  {
  }

  lemma KnotElsewhere(base: int, head: int, link: map<int, int>, ring: set<int>, p: int, to: int)
    requires Knot(base, head, link, ring) && RegionOf(p) != base
    ensures Knot(base, head, link[p := to], ring)
  {
  }

  /** What is left of the order of a region whose free links go round: no slot that
      is not live leads out of it. */
  ghost predicate RegionShape(base: int, head: int, link: map<int, int>, live: set<int>) {
    && 0 < base < USER_SPACE && base % REGION_SIZE == 0 && (head == 0 || RegionOf(head) == base)
    && (forall i | 0 <= i < PER_REGION :: SlotShape(base, i, link, live))
  }

  ghost predicate SlotShape(base: int, i: int, link: map<int, int>, live: set<int>) {
    var p := Slot(base, i);
    && p in link && (p in live || link[p] == 0 || RegionOf(link[p]) == base) && (i < 2 ==> p !in live)
  }

  lemma ShapeOfOk(base: int, head: int, list: seq<int>, link: map<int, int>, live: set<int>)
    requires RegionOk(base, head, list, link, live)
    ensures RegionShape(base, head, link, live)
  {
    forall i | 0 <= i < PER_REGION ensures SlotShape(base, i, link, live) {
      assert SlotOk(base, i, list, link, live);
      if Slot(base, i) !in live { LinksInside(base, head, list, link, live, i); }
    }
  }

  lemma ShapePushed(base: int, head: int, link: map<int, int>, live: set<int>, p: int)
    requires RegionShape(base, head, link, live) && RegionOf(p) == base
    ensures RegionShape(base, p, link[p := head], live - {p})
  {
    var link', live' := link[p := head], live - {p};
    forall i | 0 <= i < PER_REGION ensures SlotShape(base, i, link', live') { assert SlotShape(base, i, link, live); }
  }

  lemma ShapeElsewhere(base: int, head: int, link: map<int, int>, live: set<int>, p: int, to: int)
    requires RegionShape(base, head, link, live) && RegionOf(p) != base
    ensures RegionShape(base, head, link[p := to], live - {p})
  {
    var link', live' := link[p := to], live - {p};
    forall i | 0 <= i < PER_REGION ensures SlotShape(base, i, link', live') {
      assert SlotShape(base, i, link, live);
      SlotIsSlot(base, i);
    }
  }

  /** A region in order, or one with a knot. */
  ghost predicate RegionLoose(base: int, head: int, list: seq<int>, link: map<int, int>, live: set<int>, knots: map<int, set<int>>) {
    if base in knots then RegionShape(base, head, link, live) && Knot(base, head, link, knots[base])
    else RegionOk(base, head, list, link, live)
  }

  lemma LooseSlot(base: int, head: int, list: seq<int>, link: map<int, int>, live: set<int>, knots: map<int, set<int>>, i: int)
    requires RegionLoose(base, head, list, link, live, knots) && 0 <= i < PER_REGION
    ensures SlotShape(base, i, link, live) && base % REGION_SIZE == 0
  {
    if base !in knots { ShapeOfOk(base, head, list, link, live); }
  }

  /** What lies in the `pbRemain` of a trampoline given out: an address outside of
      all regions. */
  ghost predicate Outside(p: int, regions: seq<int>) { p != 0 && RegionOf(p) !in regions }

  class Pool {
    var regions: seq<int>
    var current: int
    var free: map<int, int>
    var remain: map<int, int>
    ghost var lists: map<int, seq<int>>
    ghost var live: set<int>

    /** The regions whose free links go round, each with the links that do. */
    ghost var knots: map<int, set<int>>

    /** What holds even if a trampoline has been given back twice. */
    ghost predicate Loose()
      reads this
    {
      && Distinct(regions)
      && (current == 0 || current in regions)
      && (forall base | base in regions :: base in free && base in lists)
      && (forall base {:trigger RegionState(base)} | base in regions :: RegionState(base))
      && (forall p | p in live :: p in remain)
      && (forall p {:trigger LiveState(p)} | p in live :: LiveState(p))
    }

    /** A live trampoline: its links are not followed. */
    ghost predicate LiveState(p: int)
      reads this`regions, this`remain
    {
      IsSlot(p) && RegionOf(p) in regions && p in remain && Outside(remain[p], regions)
    }

    /** Everything about one region. */
    ghost predicate RegionState(base: int)
      reads this`free, this`lists, this`remain, this`live, this`knots
    {
      base in free && base in lists && RegionLoose(base, free[base], lists[base], remain, live, knots)
    }

    /** All regions are in order. */
    ghost predicate Valid()
      reads this
    {
      Loose() && forall base | base in regions :: base !in knots
    }

    /** Every free list can be followed to its end. */
    ghost predicate Sound()
      reads this
    {
      forall base | base in regions :: base in free && exists list :: Chain(free[base], list, remain)
    }

    /** That is so just when all regions are in order. */
    lemma SoundIsValid()
      requires Loose()
      ensures Sound() <==> Valid()
    {
      forall base | base in regions
        ensures base in knots <==> !(exists list :: Chain(free[base], list, remain))
      {
        assert RegionState(base);
        if base in knots {
          forall list ensures !Chain(free[base], list, remain) { KnotIsNoChain(base, free[base], remain, knots[base], list); }
        } else {
          assert Chain(free[base], lists[base], remain);
        }
      }
    }

    lemma LiveIndex(p: int)
      requires Loose() && p in live
      ensures IsSlot(p) && RegionOf(p) in regions && IndexOf(p) >= 2
    {
      assert LiveState(p);
      SlotAtIndex(p);
      var base := RegionOf(p);
      assert RegionState(base);
      LooseSlot(base, free[base], lists[base], remain, live, knots, IndexOf(p));
    }

    lemma LiveIn()
      requires Loose()
      ensures (forall p | p in live :: RegionOf(p) in regions) && forall b | b in regions :: b % REGION_SIZE == 0
    {
      forall p | p in live ensures RegionOf(p) in regions { assert LiveState(p); }
      forall b | b in regions ensures b % REGION_SIZE == 0 {
        assert RegionState(b);
        LooseSlot(b, free[b], lists[b], remain, live, knots, 0);
      }
    }

    /** The trampolines that can be given out. */
    ghost predicate Free(p: int)
      reads this
    {
      FreeIn(p, regions, live)
    }

    constructor ()
      ensures Valid() && live == {} && regions == []
    {
      regions, current, free, remain, lists, live, knots := [], 0, map[], map[], map[], {}, map[];
    }

    /** The free trampolines are just those on the lists of their regions. */
    lemma FreeIsListed(p: int)
      requires Valid() && IsSlot(p) && RegionOf(p) in regions
      ensures Free(p) <==> p in lists[RegionOf(p)]
    {
      SlotAtIndex(p);
      var base := RegionOf(p);
      assert RegionState(base);
      assert SlotOk(base, IndexOf(p), lists[base], remain, live);
    }

    /** Takes the first free trampoline of the current region, if it is in reach,
        and fills it with breaks. */
    method Take(lo: int, hi: int) returns (t: int)
      requires Valid() && current in regions && current in free && free[current] != 0
      modifies this
      ensures Valid() && regions == old(regions) && current == old(current)
      ensures t == if lo <= old(free)[current] <= hi then old(free)[current] else 0
      ensures t != 0 ==> old(Free(t)) && live == old(live) + {t} && remain == old(remain)[t := 0xcccc_cccc_cccc_cccc]
      ensures t == 0 ==> live == old(live) && remain == old(remain) && lists == old(lists) && free == old(free)
    {
      t := free[current];
      if t < lo || t > hi { return 0; }
      ghost var base := current;
      assert RegionState(base) && t in lists[base];
      FreeIsListed(t);
      Popped(free[current], lists[current], remain);
      free := free[current := remain[t]];
      remain := remain[t := BREAKS];
      lists := lists[base := lists[base][1..]];
      live := live + {t};
      forall b | b in regions ensures b in old(free) && b in old(lists) && RegionOk(b, old(free)[b], old(lists)[b], old(remain), old(live)) {
        assert old(RegionState(b));
      }
      TakeKeeps(old(regions), base, t, old(free), old(lists), old(remain), old(live));
      forall p | p in live ensures LiveState(p) { assert p != t ==> old(LiveState(p)); }
    }

    /** Gives a trampoline back: it becomes the first free one of its region. One
        that is free already is linked to what it is before in the list, and the
        links of its region go round from then on. */
    method FreeTrampoline(p: int)
      requires Loose() && IsSlot(p) && RegionOf(p) in regions && IndexOf(p) >= 2
      modifies this
      ensures Loose() && regions == old(regions) && current == old(current)
      ensures live == old(live) - {p}
      ensures remain == old(remain)[p := old(free)[RegionOf(p)]] && free == old(free)[RegionOf(p) := p]
      ensures knots.Keys == old(knots).Keys + if p in old(live) then {} else {RegionOf(p)}
    {
      var region := RegionOf(p);
      assert RegionState(region);
      remain := remain[p := 0];
      remain := remain[p := free[region]];
      assert remain == old(remain)[p := free[region]];
      free := free[region := p];
      live := live - {p};
      if region in knots {
        knots := knots[region := knots[region] + {p}];
      } else if p in old(live) {
        lists := lists[region := [p] + lists[region]];
      } else {
        ListedAtIndex(region, old(free)[region], lists[region], old(remain), old(live), p);
        ghost var ring := KnotTied(region, old(free)[region], lists[region], old(remain), p);
        knots := knots[region := ring];
      }
      forall b | b in regions ensures RegionState(b) {
        assert old(RegionState(b));
        if b == region {
          GivenBack(b, old(free)[b], old(lists)[b], old(remain), old(live), old(knots), p);
        } else {
          GivenElsewhere(b, free[b], lists[b], old(remain), old(live), old(knots), p, old(free)[region]);
        }
      }
      forall q | q in live ensures LiveState(q) { assert old(LiveState(q)); }
    }

    /** Memory that the system can give for a new region: nothing else is there. */
    ghost predicate Available(base: int)
      reads this
    {
      && 0 < base < USER_SPACE && base % REGION_SIZE == 0 && base !in regions
      && forall p | p in live && p in remain :: RegionOf(remain[p]) != base
    }

    /** Puts a new region in front of the others, with all its trampolines but the
        first two on its free list. */
    method NewRegion(base: int)
      requires Valid() && Available(base)
      modifies this
      ensures Valid() && current == base && regions == [base] + old(regions) && live == old(live)
      ensures base in free && free[base] == Slot(base, 2)
      ensures forall p | p in live :: remain[p] == old(remain)[p]
    {
      current := base;
      regions := [base] + regions;
      free := free[base := 0];
      var pFree := ThreadSlots(base);
      free := free[base := pFree];
      lists := lists[base := SlotsFrom(base, 2)];
      knots := knots - {base};
      forall p | p in live ensures RegionOf(p) != base && p in remain && remain[p] == old(remain)[p] && LiveState(p) {
        assert old(LiveState(p));
      }
      NewRegionOk(base, pFree, remain, live);
      forall b | b in old(regions) ensures RegionState(b) {
        assert old(RegionState(b));
        SameRegion(b, free[b], lists[b], old(remain), remain, live);
      }
    }

    /** Zero memory, but for the free list of all its slots but the first two. */
    method ThreadSlots(base: int) returns (pFree: int)
      requires base % REGION_SIZE == 0
      modifies this`remain
      ensures pFree == Slot(base, 2) && Threaded(base, 2, pFree, remain)
      ensures KeptElsewhere(base, old(remain), remain)
    {
      remain := remain + ZeroSlots(base);
      ZeroThreaded(base, old(remain));
      var i := PER_REGION - 1;
      pFree := 0;
      while i > 1
        invariant 1 <= i < PER_REGION
        invariant Threaded(base, i + 1, pFree, remain) && KeptElsewhere(base, old(remain), remain)
      {
        ThreadOne(base, i, pFree, old(remain), remain);
        remain := remain[Slot(base, i) := pFree];
        pFree := Slot(base, i);
        i := i - 1;
      }
    }

    /** Neither the first free trampoline of any region nor that of a new one would
        be in reach. */
    ghost predicate NoneInReach(target: int, found: int)
      reads this
    {
      (found == 0 || !InReach(target, Slot(found, 2))) && !SomeInReach(target)
    }

    /** The first free trampoline of some region is in reach. */
    ghost predicate SomeInReach(target: int)
      reads this
    {
      exists b :: b in regions && b in free && InReach(target, free[b])
    }

    /** The regions there are after an allocation. */
    ghost function RegionsFor(target: int, found: int): seq<int>
      reads this
    {
      if found != 0 && !SomeInReach(target) then [found] + regions else regions
    }

    /** Allocates a trampoline within reach of target. The memory found for a new
        region, if one has to be made, is at found, which is 0 if there is none. */
    method Alloc(target: int, found: int) returns (t: int)
      requires Valid() && (found == 0 || Available(found))
      modifies this
      ensures Valid()
      ensures t != 0 ==> Lo(target) <= t <= Hi(target)
      ensures t != 0 ==> t !in old(live) && IsSlot(t) && live == old(live) + {t}
      ensures t != 0 && RegionOf(t) in old(regions) ==> old(Free(t))
      ensures t == 0 <==> old(NoneInReach(target, found))
      ensures t == 0 ==> live == old(live)
      ensures regions == old(RegionsFor(target, found))
      ensures forall p | p in old(live) :: remain[p] == old(remain)[p]
    {
      if current == 0 && regions != [] { current := regions[0]; }
      var ready := current != 0 && free[current] != 0 && Lo(target) <= free[current] <= Hi(target);
      if !ready { ready := FindRegion(target); }
      if !ready {
        if found == 0 { return 0; }
        NewRegion(found);
      }
      t := Take(Lo(target), Hi(target));
    }

    /** Makes the first region current whose first free trampoline is in reach. */
    method FindRegion(target: int) returns (ok: bool)
      requires Valid()
      modifies this`current
      ensures Valid() && (ok ==> current in regions && current in free && InReach(target, free[current]))
      ensures !ok <==> forall b | b in regions && b in free :: !InReach(target, free[b])
    {
      var i := 0;
      while i < |regions|
        invariant 0 <= i <= |regions| && Valid()
        invariant forall k | 0 <= k < i :: regions[k] in free && !InReach(target, free[regions[k]])
      {
        var base := regions[i];
        assert base in regions;
        if free[base] != 0 && Lo(target) <= free[base] <= Hi(target) {
          current := base;
          return true;
        }
        i := i + 1;
      }
      current := 0;
      return false;
    }

    // ------------------------------------------------------------ giving regions back

    /** Whether a region has no live trampoline, as can be told from its slots. */
    method IsRegionEmpty(base: int) returns (empty: bool)
      requires Loose() && base in regions
      ensures empty <==> forall p | p in live :: RegionOf(p) != base
    {
      var i := 0;
      while i < PER_REGION
        invariant 0 <= i <= PER_REGION
        invariant forall k | 0 <= k < i :: Slot(base, k) !in live
      {
        assert RegionState(base);
        LooseSlot(base, free[base], lists[base], remain, live, knots, i);
        assert Slot(base, i) in live ==> LiveState(Slot(base, i));
        var r := remain[Slot(base, i)];
        SlotIsSlot(base, i);
        InRegion(base, r);
        if r != 0 && (r < base || r >= base + REGION_SIZE) {
          return false;
        }
        i := i + 1;
      }
      forall p | p in live ensures RegionOf(p) != base {
        assert LiveState(p);
        SlotAtIndex(p);
      }
      return true;
    }

    /** Releases the regions without live trampolines, and no others. */
    method FreeUnused()
      requires Loose()
      modifies this
      ensures Loose() && knots == old(knots) && live == old(live) && remain == old(remain) && free == old(free) && lists == old(lists)
      ensures forall b :: b in regions <==> b in old(regions) && InUse(b, live)
    {
      var i := 0;
      while i < |regions|
        invariant 0 <= i <= |regions| && Loose() && knots == old(knots) && live == old(live) && remain == old(remain)
        invariant free == old(free) && lists == old(lists)
        invariant forall b | b in regions :: b in old(regions)
        invariant forall b | b in regions[..i] :: InUse(b, live)
        invariant forall b | b in old(regions) && InUse(b, live) :: b in regions
        decreases |regions| - i
      {
        var empty := IsRegionEmpty(regions[i]);
        if empty {
          ghost var was := regions;
          forall p | p in live ensures RegionOf(p) in was && RegionOf(p) != was[i] { assert LiveState(p); }
          Removed(regions, i);
          regions := regions[..i] + regions[i + 1..];
          current := 0;
          forall base | base in regions ensures RegionState(base) { assert base in was && old(RegionState(base)); }
          forall p | p in live ensures LiveState(p) { assert old(LiveState(p)); }
        } else {
          assert regions[..i + 1] == regions[..i] + [regions[i]];
          i := i + 1;
        }
      }
      assert regions[..i] == regions;
    }

    /** Stores the address behind the code that was moved into a trampoline. */
    method SetRemain(p: int, to: int)
      requires Valid() && p in live && Outside(to, regions)
      modifies this`remain
      ensures Valid() && remain == old(remain)[p := to]
    {
      remain := remain[p := to];
      forall base | base in regions ensures RegionState(base) {
        assert old(RegionState(base));
        StoreKeeps(base, free[base], lists[base], old(remain), live, p, to);
      }
      forall q | q in live ensures LiveState(q) { assert old(LiveState(q)); }
    }
  }

  ghost predicate FreeIn(p: int, regions: seq<int>, live: set<int>) {
    IsSlot(p) && RegionOf(p) in regions && IndexOf(p) >= 2 && p !in live
  }

  /** When the free trampolines are the same again, after a region may have been
      made and those without a live one may have been released. */
  lemma FreeSame(was: seq<int>, now: seq<int>, live: set<int>, found: int, made: bool, swept: bool)
    requires (forall b | b in was :: b % REGION_SIZE == 0) && forall p | p in live :: RegionOf(p) in was
    requires made ==> found % REGION_SIZE == 0 && found !in was
    requires var all := if made then [found] + was else was;
             if swept then forall b :: b in now <==> b in all && InUse(b, live) else now == all
    ensures (forall p :: FreeIn(p, now, live) <==> FreeIn(p, was, live))
            <==> if swept then forall b | b in was :: InUse(b, live) else !made
  {
    if swept {
      forall b | b in was && !InUse(b, live) ensures FreeIn(Slot(b, 2), was, live) && !FreeIn(Slot(b, 2), now, live) { UnusedIsFree(b, was, live); }
    } else if made {
      UnusedIsFree(found, now, live);
      assert !FreeIn(Slot(found, 2), was, live);
    }
  }

  lemma UnusedIsFree(b: int, regions: seq<int>, live: set<int>)
    requires b in regions && b % REGION_SIZE == 0 && !InUse(b, live)
    ensures FreeIn(Slot(b, 2), regions, live) && RegionOf(Slot(b, 2)) == b
  {
    SlotIsSlot(b, 2);
    assert Slot(b, 2) % REGION_SIZE == TRAMPOLINE_SIZE * 3;
  }

  /** Some live trampoline is in the region. */
  ghost predicate InUse(base: int, live: set<int>) { exists p :: p in live && RegionOf(p) == base }

  /** The slots from i on are on the free list of a new region. */
  ghost predicate Threaded(base: int, i: int, head: int, link: map<int, int>)
    requires 2 <= i <= PER_REGION
  {
    && Chain(head, SlotsFrom(base, i), link)
    && (forall k | 0 <= k < PER_REGION :: Slot(base, k) in link)
    && link[Slot(base, 0)] == link[Slot(base, 1)] == 0
  }

  ghost predicate KeptElsewhere(base: int, was: map<int, int>, now: map<int, int>) {
    forall p | p in was && RegionOf(p) != base :: p in now && now[p] == was[p]
  }

  lemma ZeroThreaded(base: int, was: map<int, int>)
    requires base % REGION_SIZE == 0
    ensures Threaded(base, PER_REGION, 0, was + ZeroSlots(base)) && KeptElsewhere(base, was, was + ZeroSlots(base))
  {
    var now := was + ZeroSlots(base);
    forall p | p in was && RegionOf(p) != base ensures p in now && now[p] == was[p] { NotASlot(base, p); }
  }

  lemma ThreadOne(base: int, i: int, head: int, was: map<int, int>, link: map<int, int>)
    requires base % REGION_SIZE == 0 && 2 <= i < PER_REGION
    requires Threaded(base, i + 1, head, link) && KeptElsewhere(base, was, link)
    ensures Threaded(base, i, Slot(base, i), link[Slot(base, i) := head])
    ensures KeptElsewhere(base, was, link[Slot(base, i) := head])
  {
    var p := Slot(base, i);
    SlotIsSlot(base, i);
    assert p !in SlotsFrom(base, i + 1);
    Pushed(head, SlotsFrom(base, i + 1), link, p);
    assert [p] + SlotsFrom(base, i + 1) == SlotsFrom(base, i);
  }

  lemma NotASlot(base: int, p: int)
    requires base % REGION_SIZE == 0 && RegionOf(p) != base
    ensures p !in ZeroSlots(base)
  {
    if p in ZeroSlots(base) {
      var k :| 0 <= k < PER_REGION && p == Slot(base, k);
      SlotIsSlot(base, k);
    }
  }

  function ZeroSlots(base: int): (r: map<int, int>)
    ensures forall k | 0 <= k < PER_REGION :: Slot(base, k) in r && r[Slot(base, k)] == 0
    ensures forall p | p in r :: exists k :: 0 <= k < PER_REGION && p == Slot(base, k)
  {
    map k | 0 <= k < PER_REGION :: Slot(base, k) := 0
  }

  lemma Removed(list: seq<int>, i: nat)
    requires Distinct(list) && i < |list|
    ensures Distinct(list[..i] + list[i + 1..])
    ensures forall b :: b in list[..i] + list[i + 1..] <==> b in list && b != list[i]
  {
    assert list == list[..i] + [list[i]] + list[i + 1..];
  }

  lemma InRegion(base: int, p: int)
    requires base % REGION_SIZE == 0
    ensures base <= p < base + REGION_SIZE <==> RegionOf(p) == base
  {
  }

  /** The link of a slot that is not live does not lead out of the region. */
  lemma LinksInside(base: int, head: int, list: seq<int>, link: map<int, int>, live: set<int>, i: int)
    requires RegionOk(base, head, list, link, live) && 0 <= i < PER_REGION && Slot(base, i) !in live
    ensures Slot(base, i) in link && (link[Slot(base, i)] == 0 || RegionOf(link[Slot(base, i)]) == base)
  {
    assert SlotOk(base, i, list, link, live);
    if Slot(base, i) in list {
      var k :| 0 <= k < |list| && list[k] == Slot(base, i);
      assert Linked(list, k, link);
    }
  }

  lemma NewRegionOk(base: int, head: int, link: map<int, int>, live: set<int>)
    requires 0 < base < USER_SPACE && base % REGION_SIZE == 0 && Chain(head, SlotsFrom(base, 2), link)
    requires forall k | 0 <= k < PER_REGION :: Slot(base, k) in link
    requires link[Slot(base, 0)] == link[Slot(base, 1)] == 0
    requires forall p | p in live :: RegionOf(p) != base
    ensures RegionOk(base, head, SlotsFrom(base, 2), link, live)
  {
    var list := SlotsFrom(base, 2);
    forall p | p in list ensures IsSlot(p) && RegionOf(p) == base && p !in live {
      var k :| 0 <= k < |list| && list[k] == p;
      SlotIsSlot(base, 2 + k);
    }
    forall i | 0 <= i < PER_REGION ensures SlotOk(base, i, list, link, live) {
      SlotIsSlot(base, i);
      if i >= 2 { assert list[i - 2] == Slot(base, i); }
    }
  }

  /** A change elsewhere does not touch a region. */
  lemma SameRegion(base: int, head: int, list: seq<int>, link: map<int, int>, link': map<int, int>, live: set<int>)
    requires RegionOk(base, head, list, link, live)
    requires forall p | p in link && RegionOf(p) == base :: p in link' && link'[p] == link[p]
    ensures RegionOk(base, head, list, link', live)
  {
    forall k | 0 <= k < |list| ensures Linked(list, k, link') { assert Linked(list, k, link) && list[k] in list; }
    forall i | 0 <= i < PER_REGION ensures SlotOk(base, i, list, link', live) {
      assert SlotOk(base, i, list, link, live);
      SlotIsSlot(base, i);
    }
  }

  ghost predicate RegionsOk(regions: seq<int>, free: map<int, int>, lists: map<int, seq<int>>, link: map<int, int>, live: set<int>) {
    forall base | base in regions ::
      base in free && base in lists && RegionOk(base, free[base], lists[base], link, live)
  }

  /** A change of the link of a live trampoline does not touch any region. */
  lemma StoreKeeps(base: int, head: int, list: seq<int>, link: map<int, int>, live: set<int>, p: int, to: int)
    requires RegionOk(base, head, list, link, live) && p in live
    ensures RegionOk(base, head, list, link[p := to], live)
  {
    var link' := link[p := to];
    Untouched(head, list, link, p, to);
    forall i | 0 <= i < PER_REGION ensures SlotOk(base, i, list, link', live) {
      assert SlotOk(base, i, list, link, live);
    }
  }

  lemma TakeRegion(base: int, head: int, list: seq<int>, link: map<int, int>, live: set<int>)
    requires RegionOk(base, head, list, link, live) && list != []
    ensures head in link && RegionOk(base, link[head], list[1..], link[head := BREAKS], live + {head})
  {
    var t, link', list', live' := head, link[head := BREAKS], list[1..], live + {head};
    Popped(head, list, link);
    forall p | p in list' ensures p in list && p != t { }
    Untouched(link[t], list', link, t, BREAKS);
    forall i | 0 <= i < PER_REGION ensures SlotOk(base, i, list', link', live') {
      assert SlotOk(base, i, list, link, live);
      var p := Slot(base, i);
      if p in list && p != t { assert p in list'; }
    }
  }

  lemma TakeKeeps(regions: seq<int>, base: int, t: int, free: map<int, int>, lists: map<int, seq<int>>, link: map<int, int>, live: set<int>)
    requires RegionsOk(regions, free, lists, link, live) && base in regions && t == free[base] != 0
    ensures t in link && lists[base] != []
    ensures RegionsOk(regions, free[base := link[t]], lists[base := lists[base][1..]], link[t := BREAKS], live + {t})
  {
    TakeRegion(base, free[base], lists[base], link, live);
    forall b | b in regions && b != base
      ensures RegionOk(b, free[b], lists[b], link[t := BREAKS], live + {t})
    {
      OtherRegion(b, free[b], lists[b], link, live, t, BREAKS, live + {t});
    }
  }

  /** A slot of another region is given out or taken back. */
  lemma OtherRegion(base: int, head: int, list: seq<int>, link: map<int, int>, live: set<int>, p: int, to: int, live': set<int>)
    requires RegionOk(base, head, list, link, live) && RegionOf(p) != base
    requires live' == live + {p} || live' == live - {p}
    ensures RegionOk(base, head, list, link[p := to], live')
  {
    var link' := link[p := to];
    Untouched(head, list, link, p, to);
    forall i | 0 <= i < PER_REGION ensures SlotOk(base, i, list, link', live') {
      assert SlotOk(base, i, list, link, live);
      SlotIsSlot(base, i);
    }
  }

  lemma FreeRegion(base: int, head: int, list: seq<int>, link: map<int, int>, live: set<int>, p: int)
    requires RegionOk(base, head, list, link, live) && p in live && IsSlot(p) && RegionOf(p) == base
    ensures IndexOf(p) >= 2
    ensures RegionOk(base, p, [p] + list, link[p := head], live - {p})
  {
    SlotAtIndex(p);
    assert SlotOk(base, IndexOf(p), list, link, live);
    var link', list', live' := link[p := head], [p] + list, live - {p};
    Pushed(head, list, link, p);
    forall i | 0 <= i < PER_REGION ensures SlotOk(base, i, list', link', live') {
      assert SlotOk(base, i, list, link, live);
    }
  }

  lemma ListedAtIndex(base: int, head: int, list: seq<int>, link: map<int, int>, live: set<int>, p: int)
    requires RegionOk(base, head, list, link, live) && IsSlot(p) && RegionOf(p) == base && IndexOf(p) >= 2 && p !in live
    ensures p in list
  {
    SlotAtIndex(p);
    assert SlotOk(base, IndexOf(p), list, link, live);
  }

  /** The region of a trampoline that is given back. */
  lemma GivenBack(base: int, head: int, list: seq<int>, link: map<int, int>, live: set<int>, knots: map<int, set<int>>, p: int)
    requires RegionLoose(base, head, list, link, live, knots) && IsSlot(p) && RegionOf(p) == base > 0
    ensures base in knots || p !in live ==> RegionShape(base, p, link[p := head], live - {p})
    ensures base in knots ==> Knot(base, p, link[p := head], knots[base] + {p})
    ensures base !in knots && p in live ==> RegionOk(base, p, [p] + list, link[p := head], live - {p})
  {
    if base in knots {
      ShapePushed(base, head, link, live, p);
      KnotStays(base, head, link, knots[base], p);
    } else {
      ShapeOfOk(base, head, list, link, live);
      ShapePushed(base, head, link, live, p);
      if p in live { FreeRegion(base, head, list, link, live, p); }
    }
  }

  /** The other regions. */
  lemma GivenElsewhere(base: int, head: int, list: seq<int>, link: map<int, int>, live: set<int>, knots: map<int, set<int>>, p: int, to: int)
    requires RegionLoose(base, head, list, link, live, knots) && RegionOf(p) != base
    ensures RegionLoose(base, head, list, link[p := to], live - {p}, knots)
  {
    if base in knots {
      ShapeElsewhere(base, head, link, live, p, to);
      KnotElsewhere(base, head, link, knots[base], p, to);
    } else {
      OtherRegion(base, head, list, link, live, p, to, live - {p});
    }
  }

  lemma FreeKeeps(regions: seq<int>, base: int, p: int, free: map<int, int>, lists: map<int, seq<int>>, link: map<int, int>, live: set<int>)
    requires RegionsOk(regions, free, lists, link, live) && base in regions && p in live && IsSlot(p) && RegionOf(p) == base
    ensures IndexOf(p) >= 2
    ensures RegionsOk(regions, free[base := p], lists[base := [p] + lists[base]], link[p := free[base]], live - {p})
  {
    FreeRegion(base, free[base], lists[base], link, live, p);
    forall b | b in regions && b != base
      ensures RegionOk(b, free[b], lists[b], link[p := free[base]], live - {p})
    {
      OtherRegion(b, free[b], lists[b], link, live, p, free[base], live - {p});
    }
  }
}
