/** What the bytes of x64 code mean, opcode by opcode: where branches go, how long
    instructions are with their ModR/M bytes, and where a function ends. */
module Opcodes {
  import opened Bytes
  import opened Varint
  import opened CopyTables
  import opened Relocation

  // ------------------------------------------------------------------- offsets

  /** An offset of one byte has a sign. */
  lemma ByteHasSign(b: byte)
    ensures FromChar(b) == FromOffset([b]) == if b < 0x80 then b as int else b as int - 0x100
  {
    PowValues();
    assert [b][1..] == [];
  }

  /** One of four bytes is least significant byte first, and has a sign. */
  lemma LongHasSign(a: byte, b: byte, c: byte, d: byte)
    ensures FromLong([a, b, c, d])
         == a as int + 0x100 * b as int + 0x1_0000 * c as int + 0x100_0000 * d as int - if d < 0x80 then 0 else 0x1_0000_0000
  {
    PowValues();
    assert [a, b, c, d][1..] == [b, c, d] && [b, c, d][1..] == [c, d] && [c, d][1..] == [d] && [d][1..] == [];
    assert FromLe([d]) == d as nat;
    assert FromLe([c, d]) == c as nat + 256 * d as nat;
    assert FromLe([b, c, d]) == b as nat + 256 * (c as nat + 256 * d as nat);
  }

  // ------------------------------------------------------------------ branches

  /** These instructions branch, and no others. */
  lemma Branches(bs: seq<byte>)
    ensures IsBranch(bs)
            <==> bs != [] && (bs[0] == 0xEB || 0x70 <= bs[0] <= 0x7F || bs[0] == 0xE8 || bs[0] == 0xE9
                              || (|bs| >= 2 && bs[0] == 0x0F && 0x80 <= bs[1] <= 0x8F))
  {
  }

  /** A short jump, or a short conditional one. */
  lemma ShortGoes(dec: Decoder, op: byte, d: byte, at: int)
    ensures op == 0xEB ==> EffectOf(dec, [op, d], at) == Goes(Jump, at + 2 + if d < 0x80 then d as int else d as int - 0x100)
    ensures 0x70 <= op <= 0x7F ==>
              EffectOf(dec, [op, d], at) == Goes(When(op as nat - 0x70), at + 2 + if d < 0x80 then d as int else d as int - 0x100)
  {
    ByteHasSign(d);
  }

  /** A near jump or call. */
  lemma NearGoes(dec: Decoder, op: byte, a: byte, b: byte, c: byte, d: byte, at: int)
    requires op == 0xE8 || op == 0xE9
    ensures EffectOf(dec, [op, a, b, c, d], at)
         == Goes(if op == 0xE8 then Call else Jump,
                 at + 5 + a as int + 0x100 * b as int + 0x1_0000 * c as int + 0x100_0000 * d as int - if d < 0x80 then 0 else 0x1_0000_0000)
  {
    LongHasSign(a, b, c, d);
    assert [op, a, b, c, d][1..5] == [a, b, c, d];
  }

  /** A near conditional jump. */
  lemma NearWhenGoes(dec: Decoder, op: byte, a: byte, b: byte, c: byte, d: byte, at: int)
    requires 0x80 <= op <= 0x8F
    ensures EffectOf(dec, [0x0F, op, a, b, c, d], at)
         == Goes(When(op as nat - 0x80),
                 at + 6 + a as int + 0x100 * b as int + 0x1_0000 * c as int + 0x100_0000 * d as int - if d < 0x80 then 0 else 0x1_0000_0000)
  {
    LongHasSign(a, b, c, d);
    assert [0x0F, op, a, b, c, d][2..6] == [a, b, c, d];
  }

  /** The near form of a short branch at src goes to where that goes, from each place
      that is within 31 bits of it. */
  lemma ShortMovedGoes(dec: Decoder, op: byte, d: byte, rest: seq<byte>, src: int, dst: int)
    requires DecoderOk(dec) && (op == 0xEB || 0x70 <= op <= 0x7F)
    requires var to := src + 2 + if d < 0x80 then d as int else d as int - 0x100;
             -0x8000_0000 <= to - (dst + if op == 0xEB then 5 else 6) < 0x8000_0000
    ensures var to := src + 2 + if d < 0x80 then d as int else d as int - 0x100;
            EffectOf(dec, Relocated([op, d] + rest, dec, src, dst), dst)
            == Goes(if op == 0xEB then Jump else When(op as nat - 0x70), to)
  {
    var bs := [op, d] + rest;
    ShortGoes(dec, op, d, src);
    ByteHasSign(d);
    assert bs[..2] == [op, d];
    KeepsTarget(bs, dec, src, dst);
  }

  // ------------------------------------------------------------------- lengths

  /** What the table of ModR/M bytes says of each of the four modes. */
  const MOD_ROWS: seq<seq<nat>> := [[0, 0, 0, 0, 1, 4, 0, 0], [1, 1, 1, 1, 2, 1, 1, 1], [4, 4, 4, 4, 5, 4, 4, 4], [0, 0, 0, 0, 0, 0, 0, 0]]

  lemma ModRmRows(m: byte)
    ensures |MOD_ROWS| == 4 && |MOD_ROWS[m as nat / 0x40]| == 8
    ensures ModRmBytes(m).0 == MOD_ROWS[m as nat / 0x40][m as nat % 8]
    ensures ModRmBytes(m).1 <==> m < 0x40 && m % 8 == 4
  {
    if m < 0x40 { assert m as nat / 0x40 == 0; }
    else if m < 0x80 { assert m as nat / 0x40 == 1; }
    else if m < 0xC0 { assert m as nat / 0x40 == 2; }
    else { assert m as nat / 0x40 == 3; }
  }

  /** An instruction of an opcode, its ModR/M byte m and a SIB byte s, with more bytes
      of its own behind them. */
  lemma ModRmSize(e: CopyEntry, o: Overrides, op: byte, m: byte, s: byte, rest: seq<byte>)
    requires e.modOffset == 1
    ensures Readable(e, [op, m, s] + rest)
    ensures CopySize(e, o, [op, m, s] + rest)
         == FixedSize(e, o) + (if m < 0x40 && m % 8 == 4 && s % 8 == 5 then 5 else MOD_ROWS[m as nat / 0x40][m as nat % 8])
    ensures RelStart(e, o, [op, m, s] + rest)
         == if m < 0x40 && m % 8 == 5 then CopySize(e, o, [op, m, s] + rest) - 4 - e.targetBack else e.relOffset
    ensures RelWidth(e, o, [op, m, s] + rest)
         == if m < 0x40 && m % 8 == 5 then 4
            else (if m < 0x40 && m % 8 == 4 then CopySize(e, o, [op, m, s] + rest) else FixedSize(e, o)) - e.relOffset
  {
    ModRmRows(m);
  }

  /** What prefixes make of the fixed part: a move from or to an address, one of a
      constant to a register, and all others. */
  lemma FixedSizes(e: CopyEntry, o: Overrides)
    ensures e.address ==> FixedSize(e, o) == if o.address then 5 else 9
    ensures !e.address && e.rax ==> FixedSize(e, o) == if o.rax then 9 else 5
    ensures !e.address && !e.rax ==> FixedSize(e, o) == if o.operand then e.fixedSize16 else e.fixedSize
  {
  }

  // --------------------------------------------------------- the end of a function

  /** Behind a jump, a return or a break nothing is moved, however few bytes that
      makes. */
  lemma StopsBehind(t: Table, dec: Decoder, code: seq<byte>, src: int, dst: int, need: int)
    requires IsX64(t, dec) && |code| >= MAX_LENGTH && need > 0
    requires || code[0] == 0xEB || code[0] == 0xE9 || code[0] == 0xE0 || code[0] == 0xC2 || code[0] == 0xC3 || code[0] == 0xCC
             || code[..2] == [0xFF, 0x25]
             || code[..3] == [0x26, 0xFF, 0x25] || code[..3] == [0x2E, 0xFF, 0x25] || code[..3] == [0x36, 0xFF, 0x25]
             || code[..3] == [0xE3, 0xFF, 0x25] || code[..3] == [0x64, 0xFF, 0x25] || code[..3] == [0x65, 0xFF, 0x25]
    ensures Moved(t, code, src, dst, need) == (Relocated(code, dec, src, dst), Length(code, dec))
  {
    EndsBytes(code);
    OneMoved(t, dec, code, src, dst, need);
    assert Relocated(code, dec, src, dst) + [] == Relocated(code, dec, src, dst);
  }

  /** Behind any other instruction the loop goes on. */
  lemma GoesOnBehind(t: Table, dec: Decoder, code: seq<byte>, src: int, dst: int, need: int)
    requires IsX64(t, dec) && |code| >= MAX_LENGTH && need > 0
    requires code[0] != 0xEB && code[0] != 0xE9 && code[0] != 0xE0 && code[0] != 0xC2 && code[0] != 0xC3 && code[0] != 0xCC
    requires code[..2] != [0xFF, 0x25]
    requires code[..3] != [0x26, 0xFF, 0x25] && code[..3] != [0x2E, 0xFF, 0x25] && code[..3] != [0x36, 0xFF, 0x25]
    requires code[..3] != [0xE3, 0xFF, 0x25] && code[..3] != [0x64, 0xFF, 0x25] && code[..3] != [0x65, 0xFF, 0x25]
    ensures var n, first := Length(code, dec), Relocated(code, dec, src, dst);
            && 0 < n <= |code|
            && var (rest, more) := Moved(t, code[n..], src + n, dst + |first|, need - n);
               Moved(t, code, src, dst, need) == (first + rest, n + more)
  {
    EndsBytes(code);
    OneMoved(t, dec, code, src, dst, need);
  }

  lemma EndsBytes(code: seq<byte>)
    requires |code| >= 3
    ensures code[..2] == [0xFF, 0x25] <==> code[0] == 0xFF && code[1] == 0x25
    ensures forall p: byte :: code[..3] == [p, 0xFF, 0x25] <==> code[0] == p && code[1] == 0xFF && code[2] == 0x25
  {
  }

  lemma OneMoved(t: Table, dec: Decoder, code: seq<byte>, src: int, dst: int, need: int)
    requires IsX64(t, dec) && |code| >= MAX_LENGTH && need > 0
    ensures var n, first := Length(code, dec), Relocated(code, dec, src, dst);
            && 0 < n <= |code|
            && var (rest, more) := if EndsFunction(code) then ([], 0) else Moved(t, code[n..], src + n, dst + |first|, need - n);
               Moved(t, code, src, dst, need) == (first + rest, n + more)
  {
    var n, first := Length(code, dec), Relocated(code, dec, src, dst);
    assert LengthLaw(t, code) && t.len(code) == n && t.move(code, src, dst) == first && t.ends(code) == EndsFunction(code);
    MoveOne(t, code, src, dst, need, first, code[n..]);
  }

  /** The instructions that a function ends with. */
  predicate IsLast(bs: seq<byte>) {
    |bs| >= 3 &&
    (|| bs[0] in {0xEB, 0xE9, 0xE0, 0xC2, 0xC3, 0xCC}
     || (bs[0] == 0xFF && bs[1] == 0x25)
     || (bs[0] in {0x26, 0x2E, 0x36, 0xE3, 0x64, 0x65} && bs[1] == 0xFF && bs[2] == 0x25))
  }

  /** The instruction at a is moved, and the next place is b; the last one is that
      which makes enough bytes, or ends the function. */
  predicate Taken(dec: Decoder, code: seq<byte>, a: nat, b: nat, last: bool) {
    && a < 5 && a <= |code| && b == a + Length(code[a..], dec)
    && (last <==> b >= 5 || IsLast(code[a..]))
  }

  /** The instructions that are moved start at these places, and the last place is
      behind them. */
  ghost predicate TakenTo(dec: Decoder, code: seq<byte>, places: seq<nat>) {
    && |places| >= 2
    && forall i | 0 <= i < |places| - 1 :: Taken(dec, code, places[i], places[i + 1], i == |places| - 2)
  }

  /** There are such places in all code. */
  lemma {:induction false} TakenSomewhere(t: Table, dec: Decoder, code: seq<byte>, at: nat) returns (places: seq<nat>)
    requires IsX64(t, dec) && |code| >= SIZE_OF_JMP + MAX_LENGTH && at < 5
    ensures TakenTo(dec, code, places) && places[0] == at
    decreases 5 - at
  {
    var here := code[at..];
    assert LengthLaw(t, here) && t.len(here) == Length(here, dec) > 0;
    var next := at + Length(here, dec);
    if next >= 5 || IsLast(here) {
      places := [at, next];
    } else {
      var rest := TakenSomewhere(t, dec, code, next);
      places := [at] + rest;
      forall i | 0 <= i < |places| - 1 ensures Taken(dec, code, places[i], places[i + 1], i == |places| - 2) {
        if i > 0 { assert Taken(dec, code, rest[i - 1], rest[i], i - 1 == |rest| - 2); }
      }
    }
  }

  /** A jump takes the place of these instructions; if they are too few bytes, then of
      the filler behind them as well, as far as there is any. */
  lemma FootprintOf(t: Table, dec: Decoder, code: seq<byte>, places: seq<nat>)
    requires IsX64(t, dec) && |code| >= SIZE_OF_JMP + MAX_LENGTH && TakenTo(dec, code, places) && places[0] == 0
    ensures var n, f := places[|places| - 1], Footprint(t, code);
            && (n >= 5 ==> f == n)
            && (n < 5 ==> n <= f <= 5 && (forall k | n <= k < f :: code[k] == 0x90) && (f < 5 ==> code[f] != 0x90))
  {
    var n := places[|places| - 1];
    TakenConsumed(t, dec, code, places, 0);
    assert code[0..] == code;
    if n < 5 {
      var r := Filler(code[n..], SIZE_OF_JMP - n);
      assert forall k | 0 <= k < r :: code[n..][k] == code[n + k];
    }
  }

  lemma {:induction false} TakenConsumed(t: Table, dec: Decoder, code: seq<byte>, places: seq<nat>, i: nat)
    requires IsX64(t, dec) && |code| >= SIZE_OF_JMP + MAX_LENGTH && TakenTo(dec, code, places) && i < |places| - 1
    ensures places[i] < 5 && places[i] + Consumed(t, code[places[i]..], SIZE_OF_JMP - places[i]) == places[|places| - 1]
    decreases |places| - i
  {
    assert Taken(dec, code, places[i], places[i + 1], i == |places| - 2);
    var here := code[places[i]..];
    assert LengthLaw(t, here) && t.len(here) == Length(here, dec) && t.ends(here) == EndsFunction(here) == IsLast(here);
    if i < |places| - 2 {
      TakenConsumed(t, dec, code, places, i + 1);
      assert here[t.len(here)..] == code[places[i + 1]..];
    }
  }
}
