/** The table for x64 code: branches, which are moved so that they keep their
    targets, and all other instructions, whose lengths are a parameter. */
module Relocation {
  import opened Bytes
  import opened Varint
  import opened CopyTables

  /** A signed offset of k bytes in memory. */
  function Offset(n: int, k: nat): (r: seq<byte>)
    ensures |r| == k
  {
    Le(n, k)
  }

  function FromOffset(bs: seq<byte>): int { ToSigned(FromLe(bs), |bs|) }

  function Long(n: int): (r: seq<byte>)
    ensures |r| == 4
  {
    Offset(n, 4)
  }

  function FromLong(bs: seq<byte>): int
    requires |bs| == 4
  {
    FromOffset(bs)
  }

  function FromChar(b: byte): int { if b < 0x80 then b as int else b as int - 0x100 }

  predicate FitsOffset(n: int, k: nat) { 0 - Pow(k) <= 2 * n < Pow(k) }

  predicate FitsLong(n: int) { -0x8000_0000 <= n < 0x8000_0000 }

  lemma OffsetRoundTrip(n: int, k: nat)
    requires k > 0
    ensures FromOffset(Offset(n, k)) == n <==> FitsOffset(n, k)
  {
    var p := Pow(k);
    LeRoundTrip(n, k);
    if 0 <= n < p { ModUnique(n, p, 0, n); }
    if n < 0 && n + p >= 0 { ModUnique(n, p, -1, n + p); }
  }

  lemma LongRoundTrip(n: int)
    ensures FromLong(Long(n)) == n <==> FitsLong(n)
  {
    PowValues();
    OffsetRoundTrip(n, 4);
  }

  // ---------------------------------------------------------- the copy table's entries

  /** `COPYENTRY`, without the opcode and the function. */
  datatype CopyEntry = CopyEntry(
    fixedSize: nat, fixedSize16: nat, modOffset: nat, relOffset: nat, targetBack: nat,
    dynamic: bool, address: bool, noEnlarge: bool, rax: bool)

  function FixedEntry(n: nat): CopyEntry { CopyEntry(n, n, 0, 0, 0, false, false, false, false) }

  const COPY_BYTES_3_OR_5_TARGET := CopyEntry(5, 3, 0, 1, 0, false, false, false, false)

  const COPY_BYTES_2_MOD := CopyEntry(2, 2, 1, 0, 0, false, false, false, false)

  const COPY_BYTES_2_MOD_OPERAND := CopyEntry(6, 4, 1, 0, 4, false, false, false, false)

  /** The prefixes seen so far. */
  datatype Overrides = Overrides(operand: bool, address: bool, rax: bool)

  const NO_OVERRIDES := Overrides(false, false, false)

  /** What `rbModRm` says of a ModR/M byte: the bytes it takes besides itself, and
      whether the first of them is a SIB byte that may take more. */
  function ModRmBytes(m: byte): (nat, bool) {
    if m >= 0xC0 then (0, false)
    else if m >= 0x80 then (if m % 8 == 4 then 5 else 4, false)
    else if m >= 0x40 then (if m % 8 == 4 then 2 else 1, false)
    else if m % 8 == 4 then (1, true)
    else if m % 8 == 5 then (4, false)
    else (0, false)
  }

  /** The ModR/M byte and the SIB byte are there, if there are any. */
  predicate Readable(e: CopyEntry, bs: seq<byte>) {
    e.modOffset > 0 ==>
      e.modOffset < |bs| && (ModRmBytes(bs[e.modOffset]).1 ==> e.modOffset + 1 < |bs|)
  }

  /** The operand is relative to the instruction pointer. */
  predicate IsRip(e: CopyEntry, bs: seq<byte>)
    requires Readable(e, bs)
  {
    e.modOffset > 0 && bs[e.modOffset] < 0x40 && bs[e.modOffset] % 8 == 5
  }

  function FixedSize(e: CopyEntry, o: Overrides): nat {
    if e.address then (if o.address then 5 else 9)
    else if e.rax then (if o.rax then 9 else 5)
    else if o.operand then e.fixedSize16 else e.fixedSize
  }

  /** nBytes of `CopyBytes`. */
  function CopySize(e: CopyEntry, o: Overrides, bs: seq<byte>): nat
    requires Readable(e, bs)
  {
    FixedSize(e, o) +
    if e.modOffset == 0 then 0
    else
      var m := bs[e.modOffset];
      var (more, hasSib) := ModRmBytes(m);
      more + (if hasSib && bs[e.modOffset + 1] % 8 == 5 then (if m < 0x40 then 4 else if m < 0x80 then 1 else 4) else 0)
  }

  /** Where the relative operand starts, 0 if there is none; and how wide it is. */
  function RelStart(e: CopyEntry, o: Overrides, bs: seq<byte>): int
    requires Readable(e, bs)
  {
    if IsRip(e, bs) then CopySize(e, o, bs) - (4 + e.targetBack) else e.relOffset
  }

  function RelWidth(e: CopyEntry, o: Overrides, bs: seq<byte>): int
    requires Readable(e, bs)
  {
    if IsRip(e, bs) then 4
    else if e.modOffset > 0 && ModRmBytes(bs[e.modOffset]).1 then CopySize(e, o, bs) - e.relOffset
    else FixedSize(e, o) - e.relOffset
  }

  /** cbOp of `AdjustTarget`: where the operand counts from. */
  function RelBase(e: CopyEntry, o: Overrides, bs: seq<byte>): nat
    requires Readable(e, bs)
  {
    if IsRip(e, bs) then CopySize(e, o, bs) else FixedSize(e, o)
  }

  predicate IsWidth(w: int) { w == 1 || w == 2 || w == 4 || w == 8 }

  /** An instruction as it lies in memory: how long it is, where its relative operand
      starts, 0 if it has none, how wide that is, and where it counts from. */
  datatype Shape = Shape(n: nat, start: int, width: int, base: nat) {
    /** It is there, and a relative operand lies inside it and is of a width there is. */
    predicate In(bs: seq<byte>) {
      && n <= |bs|
      && (start != 0 ==> start > 0 && IsWidth(width) && start + width <= base <= n)
    }
  }

  function ShapeOf(e: CopyEntry, o: Overrides, bs: seq<byte>): Shape
    requires Readable(e, bs)
  {
    Shape(CopySize(e, o, bs), RelStart(e, o, bs), RelWidth(e, o, bs), RelBase(e, o, bs))
  }

  /** What the table promises of an entry. */
  predicate EntryOk(e: CopyEntry, o: Overrides, bs: seq<byte>) { Readable(e, bs) && ShapeOf(e, o, bs).In(bs) }

  /** The relative operand of the instruction. */
  function Operand(sh: Shape, bs: seq<byte>): int
    requires sh.In(bs) && sh.start != 0
  {
    FromOffset(bs[sh.start..sh.start + sh.width])
  }

  /** How offsets are stored, said so that a stored offset stays closed in proofs. */
  ghost predicate IsStore(store: (int, nat) -> seq<byte>) {
    && (forall n, k {:trigger Offset(n, k)} :: store(n, k) == Offset(n, k))
    && (forall n, k {:trigger store(n, k)} :: |store(n, k)| == k)
  }

  /** An instruction of n bytes with another operand at p, if it has one. */
  function CopiedAs(bs: seq<byte>, n: nat, p: nat, operand: seq<byte>): (r: seq<byte>)
    requires n <= |bs| && (p != 0 ==> p + |operand| <= n)
    ensures |r| == n
  {
    if p == 0 then bs[..n] else bs[..p] + operand + bs[p + |operand|..n]
  }

  /** The instruction as `CopyBytes` leaves it at dst. */
  ghost function Copied(store: (int, nat) -> seq<byte>, sh: Shape, bs: seq<byte>, src: int, dst: int): (r: seq<byte>)
    requires IsStore(store) && sh.In(bs)
    ensures |r| == sh.n
  {
    if sh.start == 0 then bs[..sh.n] else CopiedAs(bs, sh.n, sh.start, store(Operand(sh, bs) - (dst - src), sh.width))
  }

  /** What writing the operand in place does. */
  lemma CopiedInPlace(was: seq<byte>, now: seq<byte>, at: nat, bs: seq<byte>, n: nat, off: nat, operand: seq<byte>)
    requires 0 < off && off + |operand| <= n <= |bs| && at + n <= |was| && now == Spliced(was, at, bs[..n])
    ensures now[at + off..at + off + |operand|] == bs[off..off + |operand|]
    ensures Spliced(now, at + off, operand) == Spliced(was, at, CopiedAs(bs, n, off, operand))
  {
    SpliceRead(was, at, bs[..n], off, |operand|);
    SpliceTwice(was, at, bs[..n], off, operand);
    assert bs[..n][off..off + |operand|] == bs[off..off + |operand|];
    assert bs[..n][..off] == bs[..off] && bs[..n][off + |operand|..] == bs[off + |operand|..n];
  }

  /** A copied operand leads to the address it led to, be it code or data, if and
      only if the distance fits its width. */
  lemma OperandKept(store: (int, nat) -> seq<byte>, sh: Shape, bs: seq<byte>, src: int, dst: int)
    requires IsStore(store) && sh.In(bs) && sh.start != 0
    ensures dst + sh.base + FromOffset(Copied(store, sh, bs, src, dst)[sh.start..sh.start + sh.width]) == src + sh.base + Operand(sh, bs)
            <==> FitsOffset(Operand(sh, bs) - (dst - src), sh.width)
  {
    var to := Operand(sh, bs) - (dst - src);
    OffsetRoundTrip(to, sh.width);
    assert Copied(store, sh, bs, src, dst)[sh.start..sh.start + sh.width] == store(to, sh.width) == Offset(to, sh.width);
  }

  // ------------------------------------------------------ what instructions mean

  predicate IsShort(bs: seq<byte>) { bs != [] && (bs[0] == 0xEB || 0x70 <= bs[0] <= 0x7F) }

  predicate IsNear(bs: seq<byte>) { bs != [] && (bs[0] == 0xE8 || bs[0] == 0xE9) }

  predicate IsNearWhen(bs: seq<byte>) { |bs| >= 2 && bs[0] == 0x0F && 0x80 <= bs[1] <= 0x8F }

  predicate IsBranch(bs: seq<byte>) { IsShort(bs) || IsNear(bs) || IsNearWhen(bs) }

  /** How an instruction that does not branch is read: its prefixes, and the entry
      of its opcode with what they override. */
  datatype Decoded = Decoded(prefixes: nat, entry: CopyEntry, over: Overrides) {
    predicate CanRead(bs: seq<byte>) { prefixes <= |bs| && Readable(entry, bs[prefixes..]) }
  }

  /** Which entry each opcode has is a parameter: for an instruction that does not
      branch its prefixes and entry; how long that makes it; and where it has an
      operand that is relative to the instruction pointer, 0 if nowhere. */
  datatype Decoder = Decoder(entry: seq<byte> -> Decoded, size: seq<byte> -> nat, data: seq<byte> -> nat)

  /** The length of the first instruction. */
  function Length(bs: seq<byte>, dec: Decoder): nat {
    if IsShort(bs) then 2 else if IsNear(bs) then 5 else if IsNearWhen(bs) then 6 else dec.size(bs)
  }

  /** An instruction of n bytes with a value written over its operand at p. */
  function Patched(bs: seq<byte>, n: nat, p: nat, value: seq<byte>): (r: seq<byte>)
    requires |value| == 4 && n <= |bs| && (p != 0 ==> p + 4 <= n)
    ensures |r| == n
  {
    if p == 0 then bs[..n] else bs[..p] + value + bs[p + 4..n]
  }

  /** Entries of instructions that do not branch: 15 bytes at most and two at least
      behind the escape byte 0F, with an operand behind the opcode if it is relative,
      and not changed by the value of that or by what follows. */
  ghost predicate DecoderOk(dec: Decoder) {
    && (forall bs :: 0 < dec.size(bs) <= MAX_LENGTH)
    && (forall bs :: bs != [] && bs[0] == 0x0F ==> dec.size(bs) >= 2)
    && (forall bs {:trigger EntryLaw(dec, bs)} :: EntryLaw(dec, bs))
    && (forall bs, value, more :: StandsAlone(dec, bs, value, more))
  }

  /** The entry makes that length and that operand. */
  predicate EntryLaw(dec: Decoder, bs: seq<byte>) {
    dec.size(bs) <= |bs| && !IsBranch(bs) ==>
      var d := dec.entry(bs);
      d.CanRead(bs) && Behind(ShapeOf(d.entry, d.over, bs[d.prefixes..]), d.prefixes, dec.size(bs), dec.data(bs))
  }

  /** The shape of what is behind k prefixes of an instruction of n bytes, the operand
      of which is at p and counts from its end. */
  predicate Behind(sh: Shape, k: nat, n: nat, p: nat) {
    && n == k + sh.n
    && p == (if sh.start == 0 then 0 else k + sh.start)
    && (sh.start != 0 ==> 2 <= sh.start && sh.width == 4 && sh.start + 4 <= sh.base == sh.n)
  }

  predicate StandsAlone(dec: Decoder, bs: seq<byte>, value: seq<byte>, more: seq<byte>) {
    var n, p := dec.size(bs), dec.data(bs);
    n <= |bs| && |value| == 4 && (p != 0 ==> p + 4 <= n) ==>
      var other := Patched(bs, n, p, value) + more;
      dec.size(other) == n && dec.data(other) == p
  }

  lemma OperandInside(dec: Decoder, bs: seq<byte>)
    requires EntryLaw(dec, bs) && dec.size(bs) <= |bs| && !IsBranch(bs)
    ensures var p := dec.data(bs); p != 0 ==> 2 <= p && p + 4 <= dec.size(bs)
  {
  }

  /** All the bytes of a branch are there. */
  predicate WholeBranch(bs: seq<byte>) {
    IsBranch(bs) && |bs| >= if IsShort(bs) then 2 else if IsNear(bs) then 5 else 6
  }

  /** Where a branch at address at goes. */
  function Target(bs: seq<byte>, at: int): int
    requires WholeBranch(bs)
  {
    if IsShort(bs) then at + 2 + FromChar(bs[1])
    else if IsNear(bs) then at + 5 + FromLong(bs[1..5])
    else at + 6 + FromLong(bs[2..6])
  }

  function FlowOf(bs: seq<byte>): Flow
    requires IsBranch(bs)
  {
    if bs[0] == 0xEB || bs[0] == 0xE9 then Jump
    else if bs[0] == 0xE8 then Call
    else if bs[0] == 0x0F then When(bs[1] as nat - 0x80)
    else When(bs[0] as nat - 0x70)
  }

  /** The operand of the instruction is there. */
  predicate HasData(dec: Decoder, bs: seq<byte>) {
    var p := dec.data(bs);
    !IsBranch(bs) && p != 0 && p + 4 <= dec.size(bs) <= |bs|
  }

  /** What the instruction that these bytes are does at an address. */
  function EffectOf(dec: Decoder, bs: seq<byte>, at: int): Effect {
    if WholeBranch(bs) then Goes(FlowOf(bs), Target(bs, at))
    else if HasData(dec, bs) then
      var p, n := dec.data(bs), dec.size(bs);
      Uses(Patched(bs, n, p, [0, 0, 0, 0]), at + n + FromLong(bs[p..p + 4]))
    else Runs(bs)
  }

  // -------------------------------------------------------------- one instruction

  /** How far the branch at src would have to reach from dst. */
  function NewOffset(bs: seq<byte>, src: int, dst: int): int
    requires WholeBranch(bs)
  {
    if IsShort(bs) then FromChar(bs[1]) - (dst - src + (if bs[0] == 0xEB then 3 else 4))
    else if IsNear(bs) then FromLong(bs[1..5]) - (dst - src)
    else FromLong(bs[2..6]) - (dst - src)
  }

  predicate Reaches(dec: Decoder, bs: seq<byte>, src: int, dst: int) {
    if WholeBranch(bs) then FitsLong(NewOffset(bs, src, dst))
    else if HasData(dec, bs) then FitsLong(FromLong(bs[dec.data(bs)..dec.data(bs) + 4]) - (dst - src))
    else true
  }

  /** The first instruction of bs, moved from src to dst. Short branches are made
      near ones, and relative operands lead to where they led. */
  function Relocated(bs: seq<byte>, dec: Decoder, src: int, dst: int): (r: seq<byte>)
    ensures Length(bs, dec) <= |bs| ==>
              |r| == if !IsShort(bs) then Length(bs, dec) else if bs[0] == 0xEB then 5 else 6
  {
    if Length(bs, dec) > |bs| then []
    else if !IsBranch(bs) then
      var n, p := dec.size(bs), dec.data(bs);
      if HasData(dec, bs) then Patched(bs, n, p, Long(FromLong(bs[p..p + 4]) - (dst - src))) else bs[..n]
    else
      var to := Long(NewOffset(bs, src, dst));
      if bs[0] == 0xEB then [0xE9] + to
      else if IsShort(bs) then [0x0F, bs[0] + 0x10] + to
      else if IsNear(bs) then [bs[0]] + to
      else bs[..2] + to
  }

  /** `xhook_does_code_end_function`. */
  predicate EndsFunction(bs: seq<byte>) {
    && |bs| >= 3
    && (|| bs[0] == 0xEB || bs[0] == 0xE9 || bs[0] == 0xE0 || bs[0] == 0xC2 || bs[0] == 0xC3 || bs[0] == 0xCC
        || (bs[0] == 0xFF && bs[1] == 0x25)
        || ((bs[0] == 0x26 || bs[0] == 0x2E || bs[0] == 0x36 || bs[0] == 0xE3 || bs[0] == 0x64 || bs[0] == 0x65)
            && bs[1] == 0xFF && bs[2] == 0x25))
  }


  /** The table for code whose other instructions have the lengths given. */
  function X64(dec: Decoder): Table {
    Table(bs => Length(bs, dec),
          (bs, src, dst) => Relocated(bs, dec, src, dst),
          (bs, src, dst) => Reaches(dec, bs, src, dst),
          bs => EndsFunction(bs),
          (bs, at) => EffectOf(dec, bs, at))
  }

  /** With another value of its operand and other bytes behind it, it is the same
      instruction. */
  lemma PlainMoved(bs: seq<byte>, dec: Decoder, value: seq<byte>, more: seq<byte>)
    requires DecoderOk(dec) && dec.size(bs) <= |bs| && !IsBranch(bs) && |value| == 4
    ensures var n, p := dec.size(bs), dec.data(bs);
            && (p != 0 ==> 2 <= p && p + 4 <= n)
            && var moved := Patched(bs, n, p, value) + more;
               !IsBranch(moved) && dec.size(moved) == n && dec.data(moved) == p
  {
    assert EntryLaw(dec, bs);
    OperandInside(dec, bs);
    assert StandsAlone(dec, bs, value, more);
  }

  lemma PieceKept(bs: seq<byte>, dec: Decoder, more: seq<byte>)
    requires DecoderOk(dec) && Length(bs, dec) <= |bs|
    ensures Length(bs[..Length(bs, dec)] + more, dec) == Length(bs, dec)
  {
    if !IsBranch(bs) {
      var n, p := dec.size(bs), dec.data(bs);
      PlainMoved(bs, dec, if HasData(dec, bs) then bs[p..p + 4] else [0, 0, 0, 0], more);
      if p != 0 { PatchedSame(bs, n, p); }
    }
  }

  lemma PatchedSame(bs: seq<byte>, n: nat, p: nat)
    requires p != 0 && p + 4 <= n <= |bs|
    ensures Patched(bs, n, p, bs[p..p + 4]) == bs[..n]
  {
  }

  lemma PatchedTwice(bs: seq<byte>, n: nat, p: nat, a: seq<byte>, b: seq<byte>)
    requires p != 0 && p + 4 <= n <= |bs| && |a| == |b| == 4
    ensures Patched(Patched(bs, n, p, a), n, p, b) == Patched(bs, n, p, b) && Patched(bs, n, p, a)[p..p + 4] == a
  {
  }

  /** What an instruction with an operand does, whatever the operand. */
  lemma DataEffect(bs: seq<byte>, dec: Decoder, value: seq<byte>, at: int, moved: seq<byte>)
    requires DecoderOk(dec) && HasData(dec, bs) && |value| == 4
    requires moved == Patched(bs, dec.size(bs), dec.data(bs), value)
    ensures EffectOf(dec, moved, at)
         == Uses(Patched(bs, dec.size(bs), dec.data(bs), [0, 0, 0, 0]), at + dec.size(bs) + FromLong(value))
  {
    PlainMoved(bs, dec, value, []);
    assert moved + [] == moved;
    PatchedTwice(bs, dec.size(bs), dec.data(bs), value, [0, 0, 0, 0]);
  }

  lemma SameUse(a: Effect, b: Effect, bytes: seq<byte>, n: nat, src: int, dst: int, x: int)
    requires a == Uses(bytes, dst + n + FromLong(Long(x - (dst - src)))) && b == Uses(bytes, src + n + x)
    ensures a == b <==> FitsLong(x - (dst - src))
  {
    LongRoundTrip(x - (dst - src));
  }

  /** A moved branch has one flow with the original, and goes where its offset says. */
  lemma BranchMoved(bs: seq<byte>, dec: Decoder, src: int, dst: int, more: seq<byte>)
    requires WholeBranch(bs)
    ensures var moved := Relocated(bs, dec, src, dst);
            && WholeBranch(moved) && FlowOf(moved) == FlowOf(bs)
            && Length(moved + more, dec) == |moved|
            && Target(moved, dst) == Target(bs, src) - NewOffset(bs, src, dst) + FromLong(Long(NewOffset(bs, src, dst)))
  {
    var moved, to := Relocated(bs, dec, src, dst), Long(NewOffset(bs, src, dst));
    if |moved| == 5 { assert moved[1..5] == to; } else { assert moved[2..6] == to; }
  }

  /** The moved instruction does the same if and only if where it leads, be it code
      or data, is within 32 bits of its new place. */
  lemma KeepsTarget(bs: seq<byte>, dec: Decoder, src: int, dst: int)
    requires DecoderOk(dec) && Length(bs, dec) <= |bs|
    ensures EffectOf(dec, Relocated(bs, dec, src, dst), dst) == EffectOf(dec, bs[..Length(bs, dec)], src) <==> Reaches(dec, bs, src, dst)
  {
    if IsBranch(bs) { KeepsBranch(bs, dec, src, dst); }
    else if HasData(dec, bs) { KeepsData(bs, dec, src, dst); }
    else { KeepsOther(bs, dec, src, dst); }
  }

  lemma KeepsBranch(bs: seq<byte>, dec: Decoder, src: int, dst: int)
    requires IsBranch(bs) && Length(bs, dec) <= |bs|
    ensures EffectOf(dec, Relocated(bs, dec, src, dst), dst) == EffectOf(dec, bs[..Length(bs, dec)], src) <==> Reaches(dec, bs, src, dst)
  {
    BranchMoved(bs, dec, src, dst, []);
    LongRoundTrip(NewOffset(bs, src, dst));
    SameTarget(bs, bs[..Length(bs, dec)], src);
  }

  lemma KeepsData(bs: seq<byte>, dec: Decoder, src: int, dst: int)
    requires DecoderOk(dec) && HasData(dec, bs)
    ensures EffectOf(dec, Relocated(bs, dec, src, dst), dst) == EffectOf(dec, bs[..Length(bs, dec)], src) <==> Reaches(dec, bs, src, dst)
  {
    var n, p := dec.size(bs), dec.data(bs);
    var x, moved, piece := FromLong(bs[p..p + 4]), Relocated(bs, dec, src, dst), bs[..Length(bs, dec)];
    DataMoved(bs, dec, src, dst);
    DataEffect(bs, dec, Long(x - (dst - src)), dst, moved);
    DataEffect(bs, dec, bs[p..p + 4], src, piece);
    SameUse(EffectOf(dec, moved, dst), EffectOf(dec, piece, src), Patched(bs, n, p, [0, 0, 0, 0]), n, src, dst, x);
  }

  lemma DataMoved(bs: seq<byte>, dec: Decoder, src: int, dst: int)
    requires HasData(dec, bs)
    ensures var n, p := dec.size(bs), dec.data(bs);
            && Relocated(bs, dec, src, dst) == Patched(bs, n, p, Long(FromLong(bs[p..p + 4]) - (dst - src)))
            && bs[..Length(bs, dec)] == Patched(bs, n, p, bs[p..p + 4])
            && (Reaches(dec, bs, src, dst) <==> FitsLong(FromLong(bs[p..p + 4]) - (dst - src)))
  {
    PatchedSame(bs, dec.size(bs), dec.data(bs));
  }

  lemma KeepsOther(bs: seq<byte>, dec: Decoder, src: int, dst: int)
    requires DecoderOk(dec) && !IsBranch(bs) && dec.size(bs) <= |bs| && !HasData(dec, bs)
    ensures EffectOf(dec, Relocated(bs, dec, src, dst), dst) == EffectOf(dec, bs[..Length(bs, dec)], src) <==> Reaches(dec, bs, src, dst)
  {
    var piece := bs[..dec.size(bs)];
    PlainMoved(bs, dec, [0, 0, 0, 0], []);
    assert piece + [] == piece;
    assert EffectOf(dec, piece, src) == Runs(piece) == EffectOf(dec, piece, dst);
  }

  lemma SameTarget(bs: seq<byte>, piece: seq<byte>, at: int)
    requires WholeBranch(bs) && WholeBranch(piece) && |piece| <= |bs| && piece == bs[..|piece|]
    ensures FlowOf(piece) == FlowOf(bs) && Target(piece, at) == Target(bs, at)
  {
    if IsNear(bs) { assert piece[1..5] == bs[1..5]; }
    else if IsNearWhen(bs) { assert piece[2..6] == bs[2..6]; }
  }

  lemma X64MoveLaw(dec: Decoder, bs: seq<byte>, src: int, dst: int, more: seq<byte>)
    requires DecoderOk(dec) && Length(bs, dec) <= |bs|
    ensures var moved := Relocated(bs, dec, src, dst);
            && 0 < |moved| && (|moved| == Length(bs, dec) || (Length(bs, dec) == 2 && |moved| <= 6))
            && Length(moved + more, dec) == |moved|
  {
    if IsBranch(bs) {
      BranchMoved(bs, dec, src, dst, more);
    } else {
      var p := dec.data(bs);
      PlainMoved(bs, dec, if HasData(dec, bs) then Long(FromLong(bs[p..p + 4]) - (dst - src)) else [0, 0, 0, 0], more);
    }
  }

  lemma X64Lawful(dec: Decoder)
    requires DecoderOk(dec)
    ensures Lawful(X64(dec))
  {
    var t := X64(dec);
    forall bs, more ensures PieceLaw(t, bs, more) {
      if t.len(bs) <= |bs| { PieceKept(bs, dec, more); }
    }
    forall bs, src, dst, more ensures MoveLaw(t, bs, src, dst, more) {
      if t.len(bs) <= |bs| {
        X64MoveLaw(dec, bs, src, dst, more);
        KeepsTarget(bs, dec, src, dst);
      }
    }
  }

  /** A short branch always reaches from a trampoline, which is within 0x7ff80000
      of the function. */
  lemma ShortReaches(dec: Decoder, bs: seq<byte>, src: int, dst: int)
    requires IsShort(bs) && |bs| >= 2 && -0x7ff8_0000 - 30 <= dst - src <= 0x7ff8_0000 + 30
    ensures Reaches(dec, bs, src, dst)
  {
  }

  // ---------------------------------------------------------------------- the copier

  /** The entry for E8 and E9. */
  lemma NearShape(code: seq<byte>)
    requires |code| >= 5
    ensures EntryOk(COPY_BYTES_3_OR_5_TARGET, NO_OVERRIDES, code)
    ensures ShapeOf(COPY_BYTES_3_OR_5_TARGET, NO_OVERRIDES, code) == Shape(5, 1, 4, 5)
  {
  }

  /** It makes a moved near branch. */
  lemma NearCopied(store: (int, nat) -> seq<byte>, code: seq<byte>, dec: Decoder, src: int, dst: int)
    requires IsStore(store) && IsNear(code) && |code| >= 5
    ensures Copied(store, Shape(5, 1, 4, 5), code, src, dst) == Relocated(code, dec, src, dst)
    ensures Operand(Shape(5, 1, 4, 5), code) == FromLong(code[1..5])
  {
    assert code[..1] == [code[0]] && code[5..5] == [];
  }

  /** It makes all but the escape byte of a moved near conditional jump. */
  lemma NearWhenCopied(store: (int, nat) -> seq<byte>, code: seq<byte>, inner: seq<byte>, dec: Decoder, src: int, dst: int) returns (tail: seq<byte>)
    requires IsStore(store) && IsNearWhen(code) && |code| >= 6 && inner == code[1..]
    ensures tail == Copied(store, Shape(5, 1, 4, 5), inner, src + 1, dst + 1)
    ensures code[..1] + tail == Relocated(code, dec, src, dst)
    ensures Operand(Shape(5, 1, 4, 5), inner) == FromLong(code[2..6])
  {
    assert inner[1..5] == code[2..6] && inner[5..5] == [];
    tail := Copied(store, Shape(5, 1, 4, 5), inner, src + 1, dst + 1);
    assert tail == [code[1]] + Long(FromLong(code[2..6]) - (dst - src));
  }

  /** Prefixes and what is behind them make a moved instruction that is no branch. */
  lemma PrefixedCopied(store: (int, nat) -> seq<byte>, code: seq<byte>, dec: Decoder, sh: Shape, k: nat, src: int, dst: int) returns (tail: seq<byte>)
    requires IsStore(store)
    requires !IsBranch(code) && dec.size(code) <= |code| && k <= |code| && Behind(sh, k, dec.size(code), dec.data(code))
    ensures sh.In(code[k..]) && tail == Copied(store, sh, code[k..], src + k, dst + k)
    ensures code[..k] + tail == Relocated(code, dec, src, dst)
  {
    var n, p := dec.size(code), dec.data(code);
    tail := Copied(store, sh, code[k..], src + k, dst + k);
    if p == 0 {
      assert code[..k] + code[k..][..sh.n] == code[..n];
    } else {
      assert code[k..][sh.start..sh.start + 4] == code[p..p + 4];
      PatchedBehind(code, k, n, p, Long(FromLong(code[p..p + 4]) - (dst - src)));
    }
  }

  lemma PatchedBehind(code: seq<byte>, k: nat, n: nat, p: nat, value: seq<byte>)
    requires k < p && p + 4 <= n <= |code| && |value| == 4
    ensures var bs := code[k..];
            code[..k] + (bs[..p - k] + value + bs[p - k + 4..n - k]) == Patched(code, n, p, value)
  {
  }

  /** Targets that are not addresses. */
  const NONE: int := 0
  const DYNAMIC: int := 0xFFFF_FFFF_FFFF_FFFF

  /** What an operand that does not fit its width makes of the extra bytes. */
  function Enlarged(to: int, width: nat, extra: int): int {
    if width < 8 && !FitsOffset(to, width) then 4 - width else extra
  }

  method CopyMemory(buf: array<byte>, at: nat, bytes: seq<byte>)
    requires at + |bytes| <= buf.Length
    modifies buf
    ensures buf[..] == Spliced(old(buf[..]), at, bytes)
  {
    ghost var was := buf[..];
    var k := 0;
    while k < |bytes|
      invariant 0 <= k <= |bytes|
      invariant buf[..] == Spliced(was, at, bytes[..k])
    {
      SpliceGrow(was, at, bytes, k);
      buf[at + k] := bytes[k];
      k := k + 1;
    }
    assert bytes[..k] == bytes;
  }

  class CXHookDis {
    const dec: Decoder
    const store: (int, nat) -> seq<byte>
    var over: Overrides
    var target: int
    var extra: int

    constructor (dec: Decoder)
      ensures this.dec == dec && IsStore(store) && over == NO_OVERRIDES && target == NONE && extra == 0
    {
      this.dec, store := dec, (n: int, k: nat) => Offset(n, k);
      over, target, extra := NO_OVERRIDES, NONE, 0;
    }

    /** Makes the offset that was copied with an instruction of cbOp bytes lead to
        the same address from the new place, if it fits. */
    method AdjustTarget(buf: array<byte>, at: nat, src: int, dst: int, cbOp: nat, off: nat, width: nat, ghost to: int)
      requires IsStore(store)
      requires IsWidth(width) && off + width <= cbOp && at + off + width <= buf.Length
      requires to == FromOffset(buf[..][at + off..at + off + width])
      modifies this`target, this`extra, buf
      ensures target == src + cbOp + to
      ensures buf[..] == Spliced(old(buf[..]), at + off, store(to - (dst - src), width))
      ensures extra == Enlarged(to - (dst - src), width, old(extra))
    {
      var p := at + off;
      var oldOffset := FromOffset(buf[p..p + width]);
      assert buf[p..p + width] == buf[..][p..p + width];
      target := src + cbOp + oldOffset;
      var newOffset := oldOffset - (dst - src);
      CopyMemory(buf, p, store(newOffset, width));
      if width < 8 && !FitsOffset(newOffset, width) { extra := 4 - width; }
    }

    /** Copies the instruction of an entry, with its relative operand adjusted if it
        has one. An operand that is data is no target of the code. */
    method CopyBytes(e: CopyEntry, buf: array<byte>, at: nat, code: seq<byte>, src: int, dst: int) returns (used: nat)
      requires IsStore(store) && EntryOk(e, over, code) && at + ShapeOf(e, over, code).n <= buf.Length
      modifies this`target, this`extra, buf
      ensures used == ShapeOf(e, over, code).n
      ensures var sh := ShapeOf(e, over, code);
              && buf[..] == Spliced(old(buf[..]), at, Copied(store, sh, code, src, dst))
              && target == (if e.dynamic then DYNAMIC
                            else if sh.start == 0 then old(target)
                            else if e.relOffset == 0 then NONE
                            else src + sh.base + Operand(sh, code))
              && var wide := if sh.start == 0 then old(extra) else Enlarged(Operand(sh, code) - (dst - src), sh.width, old(extra));
                 extra == if e.noEnlarge then -wide else wide
    {
      var sh := ShapeOf(e, over, code);
      used := CopyShaped(sh, buf, at, code, src, dst);
      if sh.start != 0 && e.relOffset == 0 { target := NONE; }
      if e.noEnlarge { extra := -extra; }
      if e.dynamic { target := DYNAMIC; }
    }

    /** Copies it and adjusts its operand, whatever that is. */
    method CopyShaped(sh: Shape, buf: array<byte>, at: nat, code: seq<byte>, src: int, dst: int) returns (used: nat)
      requires IsStore(store) && sh.In(code) && at + sh.n <= buf.Length
      modifies this`target, this`extra, buf
      ensures used == sh.n && buf[..] == Spliced(old(buf[..]), at, Copied(store, sh, code, src, dst))
      ensures sh.start == 0 ==> target == old(target) && extra == old(extra)
      ensures sh.start != 0 ==>
                && target == src + sh.base + Operand(sh, code)
                && extra == Enlarged(Operand(sh, code) - (dst - src), sh.width, old(extra))
    {
      used := sh.n;
      ghost var was := buf[..];
      CopyMemory(buf, at, code[..used]);
      if sh.start != 0 { AdjustCopied(sh, buf, at, code, src, dst, was); }
    }

    method AdjustCopied(sh: Shape, buf: array<byte>, at: nat, code: seq<byte>, src: int, dst: int, ghost was: seq<byte>)
      requires IsStore(store) && sh.In(code) && sh.start != 0 && at + sh.n <= buf.Length == |was| && buf[..] == Spliced(was, at, code[..sh.n])
      modifies this`target, this`extra, buf
      ensures buf[..] == Spliced(was, at, Copied(store, sh, code, src, dst))
      ensures target == src + sh.base + Operand(sh, code)
      ensures extra == Enlarged(Operand(sh, code) - (dst - src), sh.width, old(extra))
    {
      ghost var to := Operand(sh, code);
      ghost var operand := store(to - (dst - src), sh.width);
      ghost var now := buf[..];
      CopiedInPlace(was, now, at, code, sh.n, sh.start, operand);
      AdjustTarget(buf, at, src, dst, sh.base, sh.start, sh.width, to);
      assert buf[..] == Spliced(now, at + sh.start, operand);
    }

    /** Makes a short jump a near one. */
    method CopyBytesJump(buf: array<byte>, at: nat, code: seq<byte>, src: int, dst: int)
      requires IsShort(code) && |code| >= 2 && at + 6 <= buf.Length
      modifies this`target, this`extra, buf
      ensures target == Target(code, src) == src + 2 + (if code[1] < 0x80 then code[1] as int else code[1] as int - 0x100)
      ensures extra == (if code[0] == 0xEB then 3 else 4)
      ensures buf[..] == Spliced(old(buf[..]), at, Relocated(code, dec, src, dst))
    {
      var oldOffset := FromChar(code[1]);
      target := src + 2 + oldOffset;
      extra := if code[0] == 0xEB then 3 else 4;
      var opcode, offset := NearForm(code, src, dst);
      StoreTwo(buf, at, opcode, offset);
    }

    /** The opcode and the offset of the near form. */
    method NearForm(code: seq<byte>, src: int, dst: int) returns (opcode: seq<byte>, offset: seq<byte>)
      requires IsShort(code) && |code| >= 2
      ensures opcode + offset == Relocated(code, dec, src, dst) && |opcode| + |offset| <= 6
    {
      var oldOffset := FromChar(code[1]);
      if code[0] == 0xEB {
        opcode, offset := [0xE9], Long(oldOffset - (dst - src + 3));
      } else {
        opcode, offset := [0x0F, 0x80 + code[0] % 0x10], Long(oldOffset - (dst - src + 4));
      }
    }

    /** The opcode, and then the offset. */
    method StoreTwo(buf: array<byte>, at: nat, a: seq<byte>, b: seq<byte>)
      requires at + |a| + |b| <= buf.Length
      modifies buf
      ensures buf[..] == Spliced(old(buf[..]), at, a + b)
    {
      ghost var was := buf[..];
      CopyMemory(buf, at, a);
      CopyMemory(buf, at + |a|, b);
      SpliceNext(was, at, a, b);
    }

    /** Moves one instruction: how many bytes it had, how many more it has now, and
        where it goes if it branches. */
    method CopyInstruction(buf: array<byte>, at: nat, code: seq<byte>, src: int, dst: int) returns (used: nat)
      requires DecoderOk(dec) && IsStore(store) && over == NO_OVERRIDES && extra == 0
      requires |code| >= MAX_LENGTH && at + MAX_LENGTH <= buf.Length
      modifies this`target, this`extra, this`over, buf
      ensures used == Length(code, dec)
      ensures used + extra == |Relocated(code, dec, src, dst)|
      ensures IsBranch(code) ==> target == Target(code, src)
      ensures buf[..] == Spliced(old(buf[..]), at, Relocated(code, dec, src, dst))
    {
      if IsShort(code) {
        CopyBytesJump(buf, at, code, src, dst);
        used := 2;
      } else if IsNear(code) {
        NearShape(code);
        NearCopied(store, code, dec, src, dst);
        used := CopyBytes(COPY_BYTES_3_OR_5_TARGET, buf, at, code, src, dst);
      } else if IsNearWhen(code) {
        used := Copy0F(buf, at, code, src, dst);
      } else {
        assert EntryLaw(dec, code);
        used := CopyPrefixed(dec.entry(code), buf, at, code, src, dst);
      }
    }

    /** The prefixes, each of which overrides what it does, and then the instruction
        of the entry behind them. */
    method CopyPrefixed(d: Decoded, buf: array<byte>, at: nat, code: seq<byte>, src: int, dst: int) returns (used: nat)
      requires IsStore(store) && !IsBranch(code) && dec.size(code) <= |code| && extra == 0 && at + dec.size(code) <= buf.Length
      requires d.CanRead(code) && Behind(ShapeOf(d.entry, d.over, code[d.prefixes..]), d.prefixes, dec.size(code), dec.data(code))
      modifies this`target, this`extra, this`over, buf
      ensures used == dec.size(code) && extra == 0
      ensures buf[..] == Spliced(old(buf[..]), at, Relocated(code, dec, src, dst))
    {
      ghost var tail := PrefixedCopied(store, code, dec, ShapeOf(d.entry, d.over, code[d.prefixes..]), d.prefixes, src, dst);
      used := CopyBoth(d, buf, at, code, src, dst, tail);
    }

    method CopyBoth(d: Decoded, buf: array<byte>, at: nat, code: seq<byte>, src: int, dst: int, ghost tail: seq<byte>) returns (used: nat)
      requires IsStore(store) && d.prefixes <= |code| && EntryOk(d.entry, d.over, code[d.prefixes..]) && extra == 0
      requires ShapeOf(d.entry, d.over, code[d.prefixes..]).start != 0 ==> ShapeOf(d.entry, d.over, code[d.prefixes..]).width == 4
      requires tail == Copied(store, ShapeOf(d.entry, d.over, code[d.prefixes..]), code[d.prefixes..], src + d.prefixes, dst + d.prefixes)
      requires at + d.prefixes + |tail| <= buf.Length
      modifies this`target, this`extra, this`over, buf
      ensures used == d.prefixes + |tail| && extra == 0 && buf[..] == Spliced(old(buf[..]), at, code[..d.prefixes] + tail)
    {
      var k := d.prefixes;
      ghost var was := buf[..];
      CopyMemory(buf, at, code[..k]);
      over := d.over;
      used := CopyBehind(d.entry, buf, at + k, code[k..], src + k, dst + k, tail);
      SpliceNext(was, at, code[..k], tail);
      used := used + k;
    }

    /** An instruction that is no branch is not enlarged. */
    method CopyBehind(e: CopyEntry, buf: array<byte>, at: nat, code: seq<byte>, src: int, dst: int, ghost tail: seq<byte>) returns (used: nat)
      requires IsStore(store) && EntryOk(e, over, code) && at + ShapeOf(e, over, code).n <= buf.Length && extra == 0
      requires ShapeOf(e, over, code).start != 0 ==> ShapeOf(e, over, code).width == 4
      requires tail == Copied(store, ShapeOf(e, over, code), code, src, dst)
      modifies this`target, this`extra, buf
      ensures used == |tail| && extra == 0 && buf[..] == Spliced(old(buf[..]), at, tail)
    {
      used := CopyBytes(e, buf, at, code, src, dst);
    }

    /** The escape byte, and then the instruction behind it as one of five bytes. */
    method Copy0F(buf: array<byte>, at: nat, code: seq<byte>, src: int, dst: int) returns (used: nat)
      requires IsStore(store) && IsNearWhen(code) && over == NO_OVERRIDES && extra == 0 && |code| >= 6 && at + 6 <= buf.Length
      modifies this`target, this`extra, buf
      ensures used == 6 && extra == 0 && target == Target(code, src)
      ensures buf[..] == Spliced(old(buf[..]), at, Relocated(code, dec, src, dst))
    {
      ghost var was := buf[..];
      used := CopyBytes(FixedEntry(1), buf, at, code, src, dst);
      var inner := code[1..];
      NearShape(inner);
      ghost var tail := NearWhenCopied(store, code, inner, dec, src, dst);
      var more := CopyBytes(COPY_BYTES_3_OR_5_TARGET, buf, at + 1, inner, src + 1, dst + 1);
      used := used + more;
      SpliceNext(was, at, code[..1], tail);
    }
  }

  /** The table of the code, said so that its entries stay closed. */
  ghost predicate IsX64(t: Table, dec: Decoder) {
    && DecoderOk(dec) && Lawful(t)
    && (forall bs {:trigger Length(bs, dec)} :: t.len(bs) == Length(bs, dec))
    && (forall bs, src, dst {:trigger Relocated(bs, dec, src, dst)} :: t.move(bs, src, dst) == Relocated(bs, dec, src, dst))
    && (forall bs {:trigger EndsFunction(bs)} :: t.ends(bs) == EndsFunction(bs))
  }

  lemma TheTable(dec: Decoder)
    requires DecoderOk(dec)
    ensures IsX64(X64(dec), dec)
  {
    X64Lawful(dec);
  }

  // ------------------------------------------- room for the jump behind the code

  const SIZE_OF_JMP_INDIRECT: nat := 6

  /** Where a trampoline keeps the bytes of the function. */
  const RB_RESTORE: nat := 32

  predicate IsShortWhen(bs: seq<byte>) { bs != [] && 0x70 <= bs[0] <= 0x7F }

  /** One instruction of n bytes that is moved as it is leaves little to others. */
  lemma PlainFirst(t: Table, code: seq<byte>, src: int, dst: int, need: int)
    requires Lawful(t) && t.len(code) <= |code| && need <= SIZE_OF_JMP && |t.move(code, src, dst)| == t.len(code)
    ensures |Moved(t, code, src, dst, need).0| <= if need <= 3 then 17 else 23
  {
    if need > 0 {
      var n, first := t.len(code), t.move(code, src, dst);
      assert LengthLaw(t, code);
      if !t.ends(code) { RoomNeeded(t, code[n..], src + n, dst + |first|, need - n); }
    }
  }

  /** An instruction other than a short conditional jump keeps its length, unless it
      is a short jump, which is the last to be moved. */
  lemma OtherFirst(t: Table, dec: Decoder, code: seq<byte>, src: int, dst: int, need: int)
    requires IsX64(t, dec) && |code| >= MAX_LENGTH && need <= SIZE_OF_JMP && !IsShortWhen(code)
    ensures |Moved(t, code, src, dst, need).0| <= if need <= 3 then 17 else 23
  {
    var n, first := Length(code, dec), Relocated(code, dec, src, dst);
    assert LengthLaw(t, code) && t.len(code) == n && t.move(code, src, dst) == first;
    if IsShort(code) {
      assert EndsFunction(code) && t.ends(code);
      if need > 0 { MoveOne(t, code, src, dst, need, first, code[n..]); }
    } else {
      PlainFirst(t, code, src, dst, need);
    }
  }

  /** A short conditional jump in front makes six bytes of two. */
  lemma WhenFirst(t: Table, dec: Decoder, code: seq<byte>, src: int, dst: int, need: int)
    requires IsX64(t, dec) && |code| >= MAX_LENGTH && need > 0 && IsShortWhen(code)
    ensures |Moved(t, code, src, dst, need).0| == 6 + |Moved(t, code[2..], src + 2, dst + 6, need - 2).0|
  {
    var first := Relocated(code, dec, src, dst);
    assert Length(code, dec) == 2 && t.len(code) == 2 && t.move(code, src, dst) == first && |first| == 6;
    assert !EndsFunction(code) && !t.ends(code);
    MoveOne(t, code, src, dst, need, first, code[2..]);
  }

  /** The last instruction to be moved. */
  lemma LastMoved(t: Table, dec: Decoder, code: seq<byte>, src: int, dst: int)
    requires IsX64(t, dec) && |code| >= MAX_LENGTH
    ensures var made := |Moved(t, code, src, dst, 1).0|; if IsBranch(code) then made <= 6 else made == dec.size(code)
  {
    var n, first := Length(code, dec), Relocated(code, dec, src, dst);
    assert LengthLaw(t, code) && t.len(code) == n && t.move(code, src, dst) == first;
    MoveOne(t, code, src, dst, 1, first, code[n..]);
  }

  /** Two short conditional jumps, and an instruction that is no branch. */
  predicate TwoJumps(code: seq<byte>) {
    |code| >= 4 && IsShortWhen(code) && IsShortWhen(code[2..]) && !IsBranch(code[4..])
  }

  /** The code that takes most room when it is moved. */
  lemma MostMoved(t: Table, dec: Decoder, code: seq<byte>, src: int, dst: int)
    requires IsX64(t, dec) && |code| >= SIZE_OF_JMP + MAX_LENGTH
    ensures var made := |Moved(t, code, src, dst, SIZE_OF_JMP).0|;
            if TwoJumps(code) then made == 12 + dec.size(code[4..]) else made <= 23
  {
    if !IsShortWhen(code) {
      OtherFirst(t, dec, code, src, dst, 5);
    } else {
      WhenFirst(t, dec, code, src, dst, 5);
      assert code[2..][2..] == code[4..];
      MostLeft(t, dec, code[2..], src + 2, dst + 6);
    }
  }

  /** And what is left of it behind the first jump. */
  lemma MostLeft(t: Table, dec: Decoder, code: seq<byte>, src: int, dst: int)
    requires IsX64(t, dec) && |code| >= 2 + MAX_LENGTH
    ensures var made := |Moved(t, code, src, dst, 3).0|;
            if IsShortWhen(code) && !IsBranch(code[2..]) then made == 6 + dec.size(code[2..]) else made <= 17
  {
    if !IsShortWhen(code) {
      OtherFirst(t, dec, code, src, dst, 3);
    } else {
      WhenFirst(t, dec, code, src, dst, 3);
      LastMoved(t, dec, code[2..], src + 2, dst + 6);
    }
  }

  /** The moved code leaves no room for the jump behind it if and only if it is two
      short conditional jumps and a longer instruction than twelve bytes. */
  lemma JumpBackOverruns(t: Table, dec: Decoder, code: seq<byte>, src: int, dst: int)
    requires IsX64(t, dec) && |code| >= SIZE_OF_JMP + MAX_LENGTH
    ensures |Moved(t, code, src, dst, SIZE_OF_JMP).0| + SIZE_OF_JMP_INDIRECT > SIZE_OF_CODE
            <==> TwoJumps(code) && dec.size(code[4..]) > 12
  {
    MostMoved(t, dec, code, src, dst);
  }

  /** A function like this loses its first byte when a hook on it is taken off: the
      jump behind the moved code ends in the bytes kept. */
  predicate Spoils(code: seq<byte>, dec: Decoder) { TwoJumps(code) && dec.size(code[4..]) == MAX_LENGTH }

  /** The moved code leaves no room for the jump even with the two bytes behind it,
      and is one byte too long at most. */
  lemma JumpBackSpoils(t: Table, dec: Decoder, code: seq<byte>, src: int, dst: int)
    requires IsX64(t, dec) && |code| >= SIZE_OF_JMP + MAX_LENGTH
    ensures |Moved(t, code, src, dst, SIZE_OF_JMP).0| + SIZE_OF_JMP_INDIRECT > RB_RESTORE <==> Spoils(code, dec)
    ensures |Moved(t, code, src, dst, SIZE_OF_JMP).0| + SIZE_OF_JMP_INDIRECT <= RB_RESTORE + 1
  {
    MostMoved(t, dec, code, src, dst);
  }

  /** Moves one instruction as the table says. */
  method MoveFirst(rbCode: array<byte>, at: nat, code: seq<byte>, ghost t: Table, dec: Decoder, src: int, dst: int)
    returns (used: nat, made: nat, ended: bool)
    requires IsX64(t, dec) && |code| >= MAX_LENGTH && at + MAX_LENGTH <= rbCode.Length
    modifies rbCode
    ensures used == t.len(code) && made == |t.move(code, src, dst)| && ended == t.ends(code)
    ensures 0 < used <= MAX_LENGTH && made <= MAX_LENGTH && made <= 3 * used
    ensures rbCode[..] == Spliced(old(rbCode[..]), at, t.move(code, src, dst))
  {
    var dis := new CXHookDis(dec);
    used := dis.CopyInstruction(rbCode, at, code, src, dst);
    made := used + dis.extra;
    ended := EndsFunction(code);
    assert LengthLaw(t, code) && MoveLaw(t, code, src, dst, []);
  }

  /** What is left to move, after bytes that have been moved. */
  ghost predicate Left(t: Table, all: (seq<byte>, nat), code: seq<byte>, src: int, dst: int, bytes: seq<byte>, cb: nat) {
    var (rest, more) := Moved(t, code, src + cb, dst + |bytes|, SIZE_OF_JMP - cb);
    all == (bytes + rest, cb + more)
  }

  lemma LeftNext(t: Table, all: (seq<byte>, nat), code: seq<byte>, src: int, dst: int, bytes: seq<byte>, cb: nat,
                 first: seq<byte>, next: seq<byte>)
    requires Left(t, all, code, src, dst, bytes, cb) && cb < SIZE_OF_JMP && 0 < t.len(code) <= |code|
    requires first == t.move(code, src + cb, dst + |bytes|) && next == code[t.len(code)..]
    ensures !t.ends(code) ==> Left(t, all, next, src, dst, bytes + first, cb + t.len(code))
    ensures t.ends(code) ==> all == (bytes + first, cb + t.len(code))
  {
    MoveOne(t, code, src + cb, dst + |bytes|, SIZE_OF_JMP - cb, first, next);
    if t.ends(code) {
      assert bytes + (first + []) == bytes + first;
    } else {
      Regroup3(bytes, first, Moved(t, next, src + cb + t.len(code), dst + |bytes| + |first|, SIZE_OF_JMP - cb - t.len(code)).0);
    }
  }

  /** Passes over filler. */
  method SkipFiller(code: seq<byte>, need: int) returns (n: nat)
    requires need <= |code|
    ensures n == Filler(code, need)
  {
    n := 0;
    assert code[0..] == code;
    while n < need && code[n] == 0x90
      invariant n <= |code| && Filler(code, need) == n + Filler(code[n..], need - n)
    {
      assert code[n..][1..] == code[n + 1..];
      n := n + 1;
    }
  }

  /** The loops of an attach: moves whole instructions to the start of a trampoline,
      back to back, until a jump fits over them, and then passes over filler.
      Nothing else in the trampoline is written. */
  method CopyTarget(image: array<byte>, code: seq<byte>, ghost t: Table, dec: Decoder, src: int, dst: int)
    returns (cbCode: nat, cbTarget: nat)
    requires IsX64(t, dec) && |code| >= SIZE_OF_JMP + MAX_LENGTH && image.Length >= SIZE_OF_CODE
    modifies image
    ensures var (bytes, used) := Moved(t, code, src, dst, SIZE_OF_JMP);
            && cbCode == |bytes| <= SIZE_OF_CODE && image[..] == Spliced(old(image[..]), 0, bytes)
            && cbTarget == used + Filler(code[used..], SIZE_OF_JMP - used) == Footprint(t, code)
  {
    cbCode, cbTarget := CopyCode(image, code, t, dec, src, dst);
    ConsumedIsMoved(t, code, src, dst, SIZE_OF_JMP);
    var filler := SkipFiller(code[cbTarget..], SIZE_OF_JMP - cbTarget);
    cbTarget := cbTarget + filler;
  }

  /** The first loop. */
  method CopyCode(image: array<byte>, code: seq<byte>, ghost t: Table, dec: Decoder, src: int, dst: int)
    returns (cbCode: nat, cbTarget: nat)
    requires IsX64(t, dec) && |code| >= SIZE_OF_JMP + MAX_LENGTH && image.Length >= SIZE_OF_CODE
    modifies image
    ensures var (bytes, used) := Moved(t, code, src, dst, SIZE_OF_JMP);
            && cbCode == |bytes| <= SIZE_OF_CODE && cbTarget == used && image[..] == Spliced(old(image[..]), 0, bytes)
  {
    cbCode, cbTarget := 0, 0;
    var pbSrc, ended := code, false;
    ghost var was, bytes, all := image[..], [], Moved(t, code, src, dst, SIZE_OF_JMP);
    assert [] + all.0 == all.0;
    while cbTarget < SIZE_OF_JMP && !ended
      invariant cbTarget <= |code| && cbCode == |bytes| <= SIZE_OF_CODE && pbSrc == code[cbTarget..]
      invariant cbTarget < SIZE_OF_JMP && !ended ==> cbCode <= 3 * cbTarget
      invariant image[..] == Spliced(was, 0, bytes)
      invariant if ended then all == (bytes, cbTarget) else Left(t, all, pbSrc, src, dst, bytes, cbTarget)
      decreases !ended, SIZE_OF_JMP - cbTarget
    {
      cbCode, cbTarget, ended, bytes := MoveNext(image, cbCode, cbTarget, pbSrc, t, dec, src, dst, all, was, bytes);
      pbSrc := code[cbTarget..];
    }
    if !ended { assert bytes + [] == bytes; }
  }

  /** The body of the loop. */
  method MoveNext(image: array<byte>, cbCode: nat, cbTarget: nat, pbSrc: seq<byte>, ghost t: Table, dec: Decoder,
                  src: int, dst: int, ghost all: (seq<byte>, nat), ghost was: seq<byte>, ghost bytes: seq<byte>)
    returns (cbCode': nat, cbTarget': nat, ended: bool, ghost bytes': seq<byte>)
    requires IsX64(t, dec) && cbTarget < SIZE_OF_JMP && |pbSrc| >= MAX_LENGTH
    requires cbCode == |bytes| <= 3 * cbTarget && image.Length == |was| >= SIZE_OF_CODE && image[..] == Spliced(was, 0, bytes)
    requires Left(t, all, pbSrc, src, dst, bytes, cbTarget)
    modifies image
    ensures cbTarget < cbTarget' <= cbTarget + |pbSrc| && cbCode' == |bytes'| <= SIZE_OF_CODE
    ensures cbTarget' < SIZE_OF_JMP ==> cbCode' <= 3 * cbTarget'
    ensures image[..] == Spliced(was, 0, bytes')
    ensures if ended then all == (bytes', cbTarget')
            else Left(t, all, pbSrc[cbTarget' - cbTarget..], src, dst, bytes', cbTarget')
  {
    ghost var first := t.move(pbSrc, src + cbTarget, dst + cbCode);
    var used, made;
    used, made, ended := MoveFirst(image, cbCode, pbSrc, t, dec, src + cbTarget, dst + cbCode);
    SpliceNext(was, 0, bytes, first);
    LeftNext(t, all, pbSrc, src, dst, bytes, cbTarget, first, pbSrc[used..]);
    cbCode', cbTarget', bytes' := cbCode + made, cbTarget + used, bytes + first;
  }

  /** A trampoline never starts with a short jump, so that a pointer to one is not
      taken for a pointer to such a jump. */
  lemma NeverShort(t: Table, code: seq<byte>, dec: Decoder, src: int, dst: int, need: int)
    requires IsX64(t, dec) && Moved(t, code, src, dst, need).0 != []
    ensures Moved(t, code, src, dst, need).0[0] != 0xEB
  {
    var n, first := t.len(code), Relocated(code, dec, src, dst);
    assert LengthLaw(t, code) && MoveLaw(t, code, src, dst, []);
    assert n == Length(code, dec) && t.move(code, src, dst) == first;
  }

  // ------------------------------------------------------ inputs that overrun

  /** lock or qword ptr [rsp + disp32], imm32: the prefix, the REX byte, and the
      instruction of the entry for 81. */
  const LOCK_OR: seq<byte> := [0xF0, 0x48, 0x81, 0x8C, 0x24, 1, 0, 0, 0, 1, 0, 0, 0]

  /** The same with 32-bit addresses, in another segment. */
  const LONG_OR: seq<byte> := [0x67, 0x65] + LOCK_OR

  /** jne, jne, one of these, and a return with filler behind it. */
  const OVERRUN: seq<byte> := [0x75, 0x10, 0x75, 0x10] + LOCK_OR + [0xC3, 0x90, 0x90]

  const SPOILED: seq<byte> := [0x75, 0x10, 0x75, 0x10] + LONG_OR + [0xC3]

  /** Entries for these, and for a move from an address relative to the instruction
      pointer. */
  function SomeEntry(bs: seq<byte>): Decoded {
    if bs == [] then Plain(MAX_LENGTH)
    else if bs[0] == 0x0F then Plain(2)
    else if bs[0] == 0x67 then
      if |bs| < 6 then Plain(MAX_LENGTH)
      else if bs[..6] == LONG_OR[..6] then Decoded(4, COPY_BYTES_2_MOD_OPERAND, Overrides(false, true, true))
      else Plain(6)
    else if bs[0] == 0xF0 then
      if |bs| < 4 then Plain(MAX_LENGTH)
      else if bs[..4] == LOCK_OR[..4] then Decoded(2, COPY_BYTES_2_MOD_OPERAND, Overrides(false, false, true))
      else Plain(4)
    else if bs[0] == 0x8B then
      if |bs| < 2 then Plain(MAX_LENGTH) else if bs[1] == 0x05 then Decoded(0, COPY_BYTES_2_MOD, NO_OVERRIDES) else Plain(2)
    else Plain(1)
  }

  function Plain(n: nat): Decoded { Decoded(0, FixedEntry(n), NO_OVERRIDES) }

  /** The lengths that they make. */
  function SomeSize(bs: seq<byte>): nat {
    var d := SomeEntry(bs);
    if d.CanRead(bs) then d.prefixes + CopySize(d.entry, d.over, bs[d.prefixes..]) else MAX_LENGTH
  }

  function SomeData(bs: seq<byte>): nat { if |bs| >= 2 && bs[0] == 0x8B && bs[1] == 0x05 then 2 else 0 }

  const SOME_DECODER := Decoder(bs => SomeEntry(bs), bs => SomeSize(bs), bs => SomeData(bs))

  lemma SomeDecoderOk()
    ensures DecoderOk(SOME_DECODER)
  {
    forall bs: seq<byte> ensures 0 < SOME_DECODER.size(bs) <= MAX_LENGTH && EntryLaw(SOME_DECODER, bs) { SomeLaw(bs); }
    forall bs: seq<byte> ensures bs != [] && bs[0] == 0x0F ==> SOME_DECODER.size(bs) >= 2 { SomeSizes(bs); }
    forall bs: seq<byte>, value: seq<byte>, more: seq<byte> ensures StandsAlone(SOME_DECODER, bs, value, more) { SomeStandsAlone(bs, value, more); }
  }

  lemma SomeLaw(bs: seq<byte>)
    ensures 0 < SOME_DECODER.size(bs) <= MAX_LENGTH && EntryLaw(SOME_DECODER, bs)
  {
    SomeSizes(bs);
  }

  /** What those entries make of any bytes. */
  lemma SomeSizes(bs: seq<byte>)
    ensures SomeEntry(bs).CanRead(bs)
    ensures SomeSize(bs)
         == if bs == [] then 15
            else if bs[0] == 0x0F then 2
            else if bs[0] == 0x67 then (if |bs| < 6 || bs[..6] == LONG_OR[..6] then 15 else 6)
            else if bs[0] == 0xF0 then (if |bs| < 4 then 15 else if bs[..4] == LOCK_OR[..4] then 13 else 4)
            else if bs[0] == 0x8B then (if |bs| < 2 then 15 else if bs[1] == 0x05 then 6 else 2)
            else 1
  {
    if |bs| >= 6 && bs[..6] == LONG_OR[..6] {
      assert bs[4..][1] == bs[..6][5] == 0x8C;
    } else if |bs| >= 4 && bs[..4] == LOCK_OR[..4] {
      assert bs[2..][1] == bs[..4][3] == 0x8C;
    }
  }

  lemma SomeStandsAlone(bs: seq<byte>, value: seq<byte>, more: seq<byte>)
    ensures StandsAlone(SOME_DECODER, bs, value, more)
  {
    var n, p := SomeSize(bs), SomeData(bs);
    SomeSizes(bs);
    if n <= |bs| && |value| == 4 && (p != 0 ==> p + 4 <= n) {
      var other := Patched(bs, n, p, value) + more;
      SomeSizes(other);
      assert forall k | 0 <= k < n && (p == 0 || k < p) :: other[k] == bs[k];
      if n >= 6 && p == 0 { assert other[..6] == bs[..6]; }
      if n >= 4 && p == 0 { assert other[..4] == bs[..4]; }
    }
  }

  /** The entries make thirteen bytes of the one and fifteen of the other: one for
      each prefix, and six and five. */
  lemma LockOrSize(rest: seq<byte>)
    ensures SOME_DECODER.size(LOCK_OR + rest) == |LOCK_OR| == 13
    ensures SOME_DECODER.size(LONG_OR + rest) == |LONG_OR| == 15
  {
    assert (LOCK_OR + rest)[..4] == LOCK_OR[..4] && (LONG_OR + rest)[..6] == LONG_OR[..6];
    SomeSizes(LOCK_OR + rest);
    SomeSizes(LONG_OR + rest);
  }

  /** A function whose jump back is written one byte past the end of the code of the
      trampoline, although the bytes taken from the function pass the check. */
  lemma OverrunOverruns(src: int, dst: int)
    ensures IsX64(X64(SOME_DECODER), SOME_DECODER)
    ensures |Moved(X64(SOME_DECODER), OVERRUN, src, dst, SIZE_OF_JMP).0| + SIZE_OF_JMP_INDIRECT == SIZE_OF_CODE + 1
    ensures Footprint(X64(SOME_DECODER), OVERRUN) == 17 <= SIZE_OF_CODE - SIZE_OF_JMP
  {
    SomeTable();
    OverrunLooks();
    TwoJumpsMove(X64(SOME_DECODER), SOME_DECODER, OVERRUN, src, dst, 13);
  }

  lemma SomeTable()
    ensures IsX64(X64(SOME_DECODER), SOME_DECODER)
  {
    SomeDecoderOk();
    TheTable(SOME_DECODER);
  }

  lemma OverrunLooks()
    ensures |OVERRUN| == SIZE_OF_JMP + MAX_LENGTH && TwoJumps(OVERRUN) && SOME_DECODER.size(OVERRUN[4..]) == 13
  {
    assert OVERRUN[4..] == LOCK_OR + [0xC3, 0x90, 0x90];
    LockOrSize([0xC3, 0x90, 0x90]);
  }

  lemma SpoiledLooks()
    ensures |SPOILED| == SIZE_OF_JMP + MAX_LENGTH && TwoJumps(SPOILED) && SOME_DECODER.size(SPOILED[4..]) == 15
  {
    assert SPOILED[4..] == LONG_OR + [0xC3];
    LockOrSize([0xC3]);
  }

  /** One whose jump back ends in the bytes kept of the function. */
  lemma SpoiledSpoils(src: int, dst: int)
    ensures IsX64(X64(SOME_DECODER), SOME_DECODER)
    ensures Spoils(SPOILED, SOME_DECODER) && |SPOILED| == SIZE_OF_JMP + MAX_LENGTH
    ensures |Moved(X64(SOME_DECODER), SPOILED, src, dst, SIZE_OF_JMP).0| == 27
    ensures Footprint(X64(SOME_DECODER), SPOILED) == 19 <= SIZE_OF_CODE - SIZE_OF_JMP
  {
    SomeTable();
    SpoiledLooks();
    TwoJumpsMove(X64(SOME_DECODER), SOME_DECODER, SPOILED, src, dst, 15);
  }

  lemma TwoJumpsMove(t: Table, dec: Decoder, code: seq<byte>, src: int, dst: int, n: nat)
    requires IsX64(t, dec) && |code| >= SIZE_OF_JMP + MAX_LENGTH && TwoJumps(code) && dec.size(code[4..]) == n
    ensures |Moved(t, code, src, dst, SIZE_OF_JMP).0| == 12 + n && Footprint(t, code) == 4 + n
  {
    MostMoved(t, dec, code, src, dst);
    TwoJumpsTake(t, dec, code);
  }

  /** What is taken from such a function. */
  lemma TwoJumpsTake(t: Table, dec: Decoder, code: seq<byte>)
    requires IsX64(t, dec) && |code| >= SIZE_OF_JMP + MAX_LENGTH && TwoJumps(code)
    ensures Footprint(t, code) == 4 + dec.size(code[4..])
  {
    var next, last := code[2..], code[4..];
    assert next[2..] == last;
    assert LengthLaw(t, code) && LengthLaw(t, next) && LengthLaw(t, last);
    assert t.len(code) == Length(code, dec) == 2 && t.len(next) == Length(next, dec) == 2 && t.len(last) == Length(last, dec);
    assert !EndsFunction(code) && !t.ends(code) && !EndsFunction(next) && !t.ends(next);
    assert Consumed(t, last, 1) == dec.size(last);
    assert Consumed(t, next, 3) == 2 + dec.size(last);
  }

  lemma Regroup3(a: seq<byte>, b: seq<byte>, c: seq<byte>)
    ensures a + (b + c) == (a + b) + c
  {
  }
}
