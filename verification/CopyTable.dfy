/** Moving the first instructions of a function to another address. A table says
    how each instruction is measured, moved and understood. */
module CopyTables {
  import opened Bytes

  const SIZE_OF_JMP: nat := 5
  const SIZE_OF_CODE: nat := 30
  const MAX_LENGTH: nat := 15

  datatype Flow = Jump | Call | When(cond: nat)

  /** An instruction as it acts: a branch to an address, bytes that use what is at an
      address, or bytes that act the same wherever they are. */
  datatype Effect = Goes(flow: Flow, target: int) | Uses(bytes: seq<byte>, data: int) | Runs(bytes: seq<byte>)

  /** For the instruction at the front of some bytes: its length, its bytes when it
      is moved from one address to another, whether the move can be made exactly,
      whether a function ends with it; and for just the bytes of an instruction at
      an address, what it does. */
  datatype Table = Table(
    len: seq<byte> -> nat,
    move: (seq<byte>, int, int) -> seq<byte>,
    reaches: (seq<byte>, int, int) -> bool,
    ends: seq<byte> -> bool,
    effect: (seq<byte>, int) -> Effect)

  predicate LengthLaw(t: Table, bs: seq<byte>) { 0 < t.len(bs) <= MAX_LENGTH }

  /** What follows an instruction does not change it. */
  predicate PieceLaw(t: Table, bs: seq<byte>, more: seq<byte>) {
    t.len(bs) <= |bs| ==> t.len(bs[..t.len(bs)] + more) == t.len(bs)
  }

  /** A moved instruction is one instruction, as long as before or, if that was two
      bytes, six at most, and does the same if and only if it reaches. */
  predicate MoveLaw(t: Table, bs: seq<byte>, src: int, dst: int, more: seq<byte>) {
    t.len(bs) <= |bs| ==>
      var n, moved := t.len(bs), t.move(bs, src, dst);
      && 0 < |moved| && (|moved| == n || (n == 2 && |moved| <= 6))
      && t.len(moved + more) == |moved|
      && (t.effect(moved, dst) == t.effect(bs[..n], src) <==> t.reaches(bs, src, dst))
  }

  ghost predicate Lawful(t: Table) {
    && (forall bs :: LengthLaw(t, bs))
    && (forall bs, more :: PieceLaw(t, bs, more))
    && (forall bs, src, dst, more :: MoveLaw(t, bs, src, dst, more))
  }

  /** What the instructions in bs do when they stand at address at. */
  function Effects(t: Table, bs: seq<byte>, at: int): seq<Effect> {
    var n := t.len(bs);
    if bs == [] || n == 0 || n > |bs| then []
    else [t.effect(bs[..n], at)] + Effects(t, bs[n..], at + n)
  }

  /** The code at src moved to dst, instruction by instruction, until need bytes
      have been moved or the function ends: the new bytes, and how many old ones
      they were made from. */
  function Moved(t: Table, code: seq<byte>, src: int, dst: int, need: int): (r: (seq<byte>, nat))
    ensures r.1 <= |code|
    decreases need
  {
    var n := t.len(code);
    if need <= 0 || n == 0 || n > |code| then ([], 0)
    else
      var first := t.move(code, src, dst);
      var (rest, more) :=
        if t.ends(code) then ([], 0) else Moved(t, code[n..], src + n, dst + |first|, need - n);
      (first + rest, n + more)
  }

  /** How many of the branches moved cannot reach their targets. */
  function OutOfReach(t: Table, code: seq<byte>, src: int, dst: int, need: int): nat
    decreases need
  {
    var n := t.len(code);
    if need <= 0 || n == 0 || n > |code| then 0
    else
      (if t.reaches(code, src, dst) then 0 else 1)
      + (if t.ends(code) then 0 else OutOfReach(t, code[n..], src + n, dst + |t.move(code, src, dst)|, need - n))
  }

  // ----------------------------------------------------------- the effect is kept

  lemma FirstEffect(t: Table, piece: seq<byte>, at: int, rest: seq<byte>)
    requires 0 < |piece| == t.len(piece + rest)
    ensures Effects(t, piece + rest, at) == [t.effect(piece, at)] + Effects(t, rest, at + |piece|)
  {
    var bs := piece + rest;
    assert bs[..|piece|] == piece && bs[|piece|..] == rest;
  }

  lemma SameLists(a: Effect, x: seq<Effect>, b: Effect, y: seq<Effect>)
    ensures [a] + x == [b] + y <==> a == b && x == y
  {
    assert ([a] + x)[0] == a && ([b] + y)[0] == b;
    assert ([a] + x)[1..] == x && ([b] + y)[1..] == y;
  }

  /** One instruction in front of others, before and after the move. */
  lemma StepEffects(t: Table, here: seq<byte>, src: int, dst: int, rest: seq<byte>, tail: seq<byte>)
    requires Lawful(t) && t.len(here) <= |here|
    ensures var n, first := t.len(here), t.move(here, src, dst);
            Effects(t, first + rest, dst) == Effects(t, here[..n] + tail, src)
            <==> t.reaches(here, src, dst) && Effects(t, rest, dst + |first|) == Effects(t, tail, src + n)
  {
    var n, first := t.len(here), t.move(here, src, dst);
    assert LengthLaw(t, here) && PieceLaw(t, here, tail) && MoveLaw(t, here, src, dst, rest);
    FirstEffect(t, first, dst, rest);
    FirstEffect(t, here[..n], src, tail);
    SameLists(t.effect(first, dst), Effects(t, rest, dst + |first|), t.effect(here[..n], src), Effects(t, tail, src + n));
  }

  lemma FirstMoved(t: Table, code: seq<byte>, src: int, dst: int, first: seq<byte>, rest: seq<byte>, next: seq<byte>, more: nat)
    requires Lawful(t) && t.len(code) + more <= |code| && first == t.move(code, src, dst) && next == code[t.len(code)..]
    ensures var n := t.len(code);
            SameEffects(t, first + rest, dst, code[..n + more], src)
            <==> t.reaches(code, src, dst) && SameEffects(t, rest, dst + |first|, next[..more], src + n)
  {
    StepEffects(t, code, src, dst, rest, next[..more]);
    assert code[..t.len(code) + more] == code[..t.len(code)] + next[..more];
  }

  ghost predicate SameEffects(t: Table, moved: seq<byte>, dst: int, code: seq<byte>, src: int) {
    Effects(t, moved, dst) == Effects(t, code, src)
  }

  lemma NoEffects(t: Table, dst: int, code: seq<byte>, src: int)
    ensures SameEffects(t, [], dst, code[..0], src)
  {
    assert code[..0] == [];
  }

  /** The moved code does what the code it was moved from does, instruction by
      instruction, if and only if every branch in it reaches its target. */
  lemma {:induction false} MovedEffects(t: Table, code: seq<byte>, src: int, dst: int, need: int)
    requires Lawful(t)
    ensures var (bytes, used) := Moved(t, code, src, dst, need);
            SameEffects(t, bytes, dst, code[..used], src) <==> OutOfReach(t, code, src, dst, need) == 0
    decreases need
  {
    var n := t.len(code);
    assert LengthLaw(t, code);
    if need <= 0 || n > |code| {
      NoEffects(t, dst, code, src);
    } else if t.ends(code) {
      EndMoved(t, code, src, dst, need);
    } else {
      MovedEffects(t, code[n..], src + n, dst + |t.move(code, src, dst)|, need - n);
      NextMoved(t, code, src, dst, need, t.move(code, src, dst), code[n..]);
    }
  }

  lemma EndMoved(t: Table, code: seq<byte>, src: int, dst: int, need: int)
    requires Lawful(t) && need > 0 && 0 < t.len(code) <= |code| && t.ends(code)
    ensures var (bytes, used) := Moved(t, code, src, dst, need);
            SameEffects(t, bytes, dst, code[..used], src) <==> OutOfReach(t, code, src, dst, need) == 0
  {
    var first, next := t.move(code, src, dst), code[t.len(code)..];
    NoEffects(t, dst + |first|, next, src + t.len(code));
    FirstMoved(t, code, src, dst, first, [], next, 0);
  }

  lemma NextMoved(t: Table, code: seq<byte>, src: int, dst: int, need: int, first: seq<byte>, next: seq<byte>)
    requires Lawful(t) && need > 0 && 0 < t.len(code) <= |code| && !t.ends(code)
    requires first == t.move(code, src, dst) && next == code[t.len(code)..]
    requires var n := t.len(code);
             var (rest, more) := Moved(t, next, src + n, dst + |first|, need - n);
             SameEffects(t, rest, dst + |first|, next[..more], src + n)
             <==> OutOfReach(t, next, src + n, dst + |first|, need - n) == 0
    ensures var (bytes, used) := Moved(t, code, src, dst, need);
            SameEffects(t, bytes, dst, code[..used], src) <==> OutOfReach(t, code, src, dst, need) == 0
  {
    var n := t.len(code);
    var (rest, more) := Moved(t, next, src + n, dst + |first|, need - n);
    MoveOne(t, code, src, dst, need, first, next);
    FirstMoved(t, code, src, dst, first, rest, next, more);
  }

  /** What is left to move, with its first instruction moved. */
  lemma MoveOne(t: Table, code: seq<byte>, src: int, dst: int, need: int, first: seq<byte>, next: seq<byte>)
    requires need > 0 && 0 < t.len(code) <= |code| && first == t.move(code, src, dst) && next == code[t.len(code)..]
    ensures var n := t.len(code);
            var (rest, more) := if t.ends(code) then ([], 0) else Moved(t, next, src + n, dst + |first|, need - n);
            Moved(t, code, src, dst, need) == (first + rest, n + more)
  {
  }

  /** How many bytes that makes, of how many. */
  lemma MoveCounts(t: Table, code: seq<byte>, src: int, dst: int, need: int, n: nat, m: nat, next: seq<byte>)
    requires need > 0 && 0 < n == t.len(code) <= |code| && m == |t.move(code, src, dst)| && next == code[n..]
    ensures t.ends(code) ==>
              |Moved(t, code, src, dst, need).0| == m && Moved(t, code, src, dst, need).1 == n
    ensures !t.ends(code) ==>
              && |Moved(t, code, src, dst, need).0| == m + |Moved(t, next, src + n, dst + m, need - n).0|
              && Moved(t, code, src, dst, need).1 == n + Moved(t, next, src + n, dst + m, need - n).1
  {
    MoveOne(t, code, src, dst, need, t.move(code, src, dst), next);
  }

  // ------------------------------------------------------------------ how much room

  /** The most bytes that moving need bytes can make. */
  function Room(need: int): nat
    requires need <= SIZE_OF_JMP
  {
    if need <= 0 then 0 else if need == 1 then 15 else if need == 2 then 16 else if need == 3 then 21
    else if need == 4 then 22 else 27
  }

  lemma RoomStep(n: nat, m: nat, need: int)
    requires 0 < n <= MAX_LENGTH && (m == n || (n == 2 && m <= 6)) && 0 < need <= SIZE_OF_JMP
    ensures m + Room(need - n) <= Room(need) && m <= Room(need)
  {
  }

  lemma Lengths(t: Table, code: seq<byte>, src: int, dst: int)
    requires Lawful(t)
    ensures var n, m := t.len(code), |t.move(code, src, dst)|;
            0 < n <= MAX_LENGTH && (n <= |code| ==> 0 < m && (m == n || (n == 2 && m <= 6)))
  {
    assert LengthLaw(t, code) && MoveLaw(t, code, src, dst, []);
  }

  lemma {:induction false} RoomNeeded(t: Table, code: seq<byte>, src: int, dst: int, need: int)
    requires Lawful(t) && need <= SIZE_OF_JMP
    ensures |Moved(t, code, src, dst, need).0| <= Room(need)
    decreases need
  {
    if need > 0 && t.len(code) <= |code| {
      var n, m, next := t.len(code), |t.move(code, src, dst)|, code[t.len(code)..];
      Lengths(t, code, src, dst);
      MoveCounts(t, code, src, dst, need, n, m, next);
      RoomStep(n, m, need);
      if !t.ends(code) { RoomNeeded(t, next, src + n, dst + m, need - n); }
    }
  }

  /** The most bytes that an attach moves into a trampoline. */
  const MOST_CODE: nat := 27

  /** The moved code always fits the trampoline. */
  lemma CodeFits(t: Table, code: seq<byte>, src: int, dst: int)
    requires Lawful(t)
    ensures |Moved(t, code, src, dst, SIZE_OF_JMP).0| <= MOST_CODE < SIZE_OF_CODE
  {
    RoomNeeded(t, code, src, dst, SIZE_OF_JMP);
  }

  // ------------------------------------------------------------------- the copy loop

  /** How many of the first bytes are filler that a jump may overwrite. */
  function Filler(code: seq<byte>, need: int): (r: nat)
    ensures r <= |code| && (r == 0 || r <= need) && forall k | 0 <= k < r :: code[k] == 0x90
    ensures r < need && r < |code| ==> code[r] != 0x90
    decreases need
  {
    if need > 0 && code != [] && code[0] == 0x90 then 1 + Filler(code[1..], need - 1) else 0
  }

  /** How many bytes of the code are made room of, wherever they are moved. */
  function Consumed(t: Table, code: seq<byte>, need: int): (r: nat)
    ensures r <= |code|
    decreases need
  {
    var n := t.len(code);
    if need <= 0 || n == 0 || n > |code| then 0
    else n + (if t.ends(code) then 0 else Consumed(t, code[n..], need - n))
  }

  lemma {:induction false} ConsumedIsMoved(t: Table, code: seq<byte>, src: int, dst: int, need: int)
    ensures Moved(t, code, src, dst, need).1 == Consumed(t, code, need)
    decreases need
  {
    var n := t.len(code);
    if !(need <= 0 || n == 0 || n > |code|) && !t.ends(code) {
      ConsumedIsMoved(t, code[n..], src + n, dst + |t.move(code, src, dst)|, need - n);
    }
  }

  lemma {:induction false} ConsumedIsSmall(t: Table, code: seq<byte>, need: int)
    requires Lawful(t) && need > 0
    ensures Consumed(t, code, need) <= need - 1 + MAX_LENGTH
    decreases need
  {
    var n := t.len(code);
    assert LengthLaw(t, code);
    if n <= |code| && !t.ends(code) && need > n { ConsumedIsSmall(t, code[n..], need - n); }
  }

  /** The bytes that a jump into a trampoline takes the place of. */
  function Footprint(t: Table, code: seq<byte>): nat {
    var used := Consumed(t, code, SIZE_OF_JMP);
    used + Filler(code[used..], SIZE_OF_JMP - used)
  }

  lemma FootprintIsSmall(t: Table, code: seq<byte>)
    requires Lawful(t) && |code| >= SIZE_OF_JMP + MAX_LENGTH
    ensures Footprint(t, code) < SIZE_OF_JMP + MAX_LENGTH
  {
    ConsumedIsSmall(t, code, SIZE_OF_JMP);
  }

  /** The bytes s with others over them from at on. */
  function Spliced(s: seq<byte>, at: nat, bytes: seq<byte>): (r: seq<byte>)
    requires at + |bytes| <= |s|
    ensures |r| == |s|
  {
    s[..at] + bytes + s[at + |bytes|..]
  }

  lemma SpliceGrow(s: seq<byte>, at: nat, bytes: seq<byte>, k: nat)
    requires k < |bytes| && at + |bytes| <= |s|
    ensures Spliced(s, at, bytes[..k])[at + k := bytes[k]] == Spliced(s, at, bytes[..k + 1])
  {
    SpliceNext(s, at, bytes[..k], [bytes[k]]);
    assert bytes[..k] + [bytes[k]] == bytes[..k + 1];
  }

  lemma SpliceRead(s: seq<byte>, at: nat, bytes: seq<byte>, off: nat, width: nat)
    requires at + |bytes| <= |s| && off + width <= |bytes|
    ensures Spliced(s, at, bytes)[at + off..at + off + width] == bytes[off..off + width]
  {
  }

  lemma SpliceTwice(s: seq<byte>, at: nat, bytes: seq<byte>, off: nat, patch: seq<byte>)
    requires at + |bytes| <= |s| && off + |patch| <= |bytes|
    ensures Spliced(Spliced(s, at, bytes), at + off, patch) == Spliced(s, at, Spliced(bytes, off, patch))
  {
  }

  lemma SpliceNext(s: seq<byte>, at: nat, a: seq<byte>, b: seq<byte>)
    requires at + |a| + |b| <= |s|
    ensures Spliced(Spliced(s, at, a), at + |a|, b) == Spliced(s, at, a + b)
  {
  }
}
