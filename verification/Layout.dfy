/** The bytes of a trampoline, and the indirect jumps in it. */
module Layouts {
  import opened Bytes
  import opened Varint
  import opened CopyTables
  import opened Relocation

  /** Where its parts are: the moved code first, the size of that, the bytes kept of
      the function and how many, and three eight-byte fields. */
  const CB_CODE: nat := 30
  const CB_RESTORE: nat := 62
  const IMAGE_SIZE: nat := 64
  const PB_REMAIN: nat := 72
  const PB_XHOOK: nat := 80
  const CODE_IN: nat := 88

  const BREAK: byte := 0xCC

  /** `xhook_gen_jmp_indirect`: a jump through the address kept at to. */
  function JumpThrough(from: int, to: int): (r: seq<byte>)
    ensures |r| == SIZE_OF_JMP_INDIRECT
  {
    [0xFF, 0x25] + Long(to - (from + SIZE_OF_JMP_INDIRECT))
  }

  predicate IsJumpThrough(bs: seq<byte>) { |bs| >= 6 && bs[0] == 0xFF && bs[1] == 0x25 }

  /** Where the address is that such a jump at address at goes to. */
  function Through(bs: seq<byte>, at: int): int
    requires IsJumpThrough(bs)
  {
    at + SIZE_OF_JMP_INDIRECT + FromLong(bs[2..6])
  }

  lemma JumpsThrough(base: int, from: int, to: int, more: seq<byte>)
    requires FitsLong(to - (from + SIZE_OF_JMP_INDIRECT))
    ensures IsJumpThrough(JumpThrough(from, to) + more) && Through(JumpThrough(from, to) + more, base + from) == base + to
  {
    var bs := JumpThrough(from, to) + more;
    assert bs[2..6] == Long(to - (from + SIZE_OF_JMP_INDIRECT));
    LongRoundTrip(to - (from + SIZE_OF_JMP_INDIRECT));
  }

  lemma LongSmall(n: int)
    requires 0 <= n < 256
    ensures Long(n) == [n as byte, 0, 0, 0]
  {
    assert Le(n, 4) == [n as byte] + Le(0, 3);
    assert Le(0, 3) == [0] + Le(0, 2);
    assert Le(0, 2) == [0] + Le(0, 1);
    assert Le(0, 1) == [0] + Le(0, 0);
  }

  lemma LongBehind(n: int)
    requires -256 <= n < 0
    ensures Long(n) == [(n + 256) as byte, 0xFF, 0xFF, 0xFF]
  {
    assert n % 256 == n + 256 && n / 256 == -1;
    assert Le(n, 4) == [(n + 256) as byte] + Le(-1, 3);
    assert Le(-1, 3) == [0xFF] + Le(-1, 2);
    assert Le(-1, 2) == [0xFF] + Le(-1, 1);
    assert Le(-1, 1) == [0xFF] + Le(-1, 0);
  }

  // ------------------------------------------------------- a trampoline made ready

  /** Byte k of a trampoline up to its alignment array, for code moved and bytes
      kept of the function. The jump behind the code was written last. */
  function ImageByte(moved: seq<byte>, kept: seq<byte>, k: nat): byte
    requires |moved| <= SIZE_OF_CODE && |kept| <= SIZE_OF_CODE
  {
    if k < |moved| then moved[k]
    else if k < |moved| + SIZE_OF_JMP_INDIRECT then JumpThrough(|moved|, PB_REMAIN)[k - |moved|]
    else if k == CB_CODE then |moved| as byte
    else if k == CB_RESTORE then |kept| as byte
    else if RB_RESTORE <= k < RB_RESTORE + |kept| then kept[k - RB_RESTORE]
    else BREAK
  }

  predicate IsImage(image: seq<byte>, moved: seq<byte>, kept: seq<byte>) {
    && |moved| <= SIZE_OF_CODE && |kept| <= SIZE_OF_CODE && |image| == IMAGE_SIZE
    && forall k | 0 <= k < IMAGE_SIZE :: image[k] == ImageByte(moved, kept, k)
  }

  /** All of them, byte by byte, for code that leaves room for the jump. */
  lemma ImageBytes(image: seq<byte>, moved: seq<byte>, kept: seq<byte>)
    requires IsImage(image, moved, kept) && |moved| <= 24
    ensures |image| == 64 && image[..|moved|] == moved
    ensures image[|moved|..|moved| + 6] == [0xFF, 0x25, (66 - |moved|) as byte, 0, 0, 0]
    ensures forall k | |moved| + 6 <= k < 30 || k == 31 || 32 + |kept| <= k < 62 || k == 63 :: image[k] == 0xCC
    ensures image[30] as nat == |moved| && image[32..32 + |kept|] == kept && image[62] as nat == |kept|
  {
    LongSmall(66 - |moved|);
    var jump := image[|moved|..|moved| + 6];
    assert JumpThrough(|moved|, PB_REMAIN) == [0xFF, 0x25, (66 - |moved|) as byte, 0, 0, 0];
    forall k | 0 <= k < 6 ensures jump[k] == JumpThrough(|moved|, PB_REMAIN)[k] { assert image[|moved| + k] == jump[k]; }
  }

  /** Completes a trampoline into which code has been moved. */
  method Complete(image: array<byte>, ghost moved: seq<byte>, cbCode: nat, kept: seq<byte>)
    requires cbCode == |moved| <= SIZE_OF_CODE && |kept| <= SIZE_OF_CODE && image.Length == IMAGE_SIZE
    requires forall k | 0 <= k < IMAGE_SIZE :: image[k] == if k < |moved| then moved[k] else BREAK
    modifies image
    ensures IsImage(image[..], moved, kept)
  {
    image[CB_CODE] := cbCode as byte;
    image[CB_RESTORE] := |kept| as byte;
    CopyMemory(image, RB_RESTORE, kept);
    JumpBack(image, moved, kept);
  }

  /** Writes the jump behind the moved code, and breaks up to the end of the code. */
  method JumpBack(image: array<byte>, ghost moved: seq<byte>, ghost kept: seq<byte>)
    requires |moved| <= SIZE_OF_CODE && |kept| <= SIZE_OF_CODE && image.Length == IMAGE_SIZE
    requires forall k | 0 <= k < IMAGE_SIZE ::
               image[k] == if k < |moved| then moved[k]
                           else if k == CB_CODE then |moved| as byte
                           else if k == CB_RESTORE then |kept| as byte
                           else if RB_RESTORE <= k < RB_RESTORE + |kept| then kept[k - RB_RESTORE]
                           else BREAK
    modifies image
    ensures IsImage(image[..], moved, kept)
  {
    var at := image[CB_CODE] as nat;
    CopyMemory(image, at, JumpThrough(at, PB_REMAIN));
    var k := at + SIZE_OF_JMP_INDIRECT;
    while k < SIZE_OF_CODE
      invariant IsImage(image[..], moved, kept)
    {
      image[k] := BREAK;
      k := k + 1;
    }
  }

  /** What an attach makes of a trampoline, which is all breaks at first: the code
      that is moved, and, if that is enough for a jump, all the rest. */
  method MakeImage(read: seq<byte>, ghost t: Table, dec: Decoder, src: int, dst: int) returns (image: seq<byte>, cbTarget: nat)
    requires IsX64(t, dec) && |read| == SIZE_OF_JMP + MAX_LENGTH
    ensures cbTarget == Footprint(t, read) < |read|
    ensures cbTarget >= SIZE_OF_JMP ==> IsImage(image, Moved(t, read, src, dst, SIZE_OF_JMP).0, read[..cbTarget])
  {
    var bytes := new byte[IMAGE_SIZE](_ => BREAK);
    FootprintIsSmall(t, read);
    ghost var moved := Moved(t, read, src, dst, SIZE_OF_JMP).0;
    var cbCode;
    cbCode, cbTarget := CopyTarget(bytes, read, t, dec, src, dst);
    if cbTarget >= SIZE_OF_JMP { Complete(bytes, moved, cbCode, read[..cbTarget]); }
    image := bytes[..];
  }

  // ------------------------------------------------------------ what can be read off

  /** A trampoline, without the field that free ones are linked through. */
  datatype Trampoline = Trampoline(image: seq<byte>, xhook: int) {
    function CbRestore(): nat { if |image| == IMAGE_SIZE then image[CB_RESTORE] as nat else 0 }

    /** The bytes that a removal writes. */
    function Restore(): seq<byte> {
      if |image| == IMAGE_SIZE && CbRestore() <= SIZE_OF_CODE then image[RB_RESTORE..RB_RESTORE + CbRestore()] else []
    }
  }

  /** What the jump back leaves of the bytes kept. */
  function Restored(moved: seq<byte>, kept: seq<byte>): (r: seq<byte>)
    ensures |r| == |kept|
  {
    if |moved| + SIZE_OF_JMP_INDIRECT > RB_RESTORE && kept != [] then [0] + kept[1..] else kept
  }

  lemma RestoreRead(tramp: Trampoline, moved: seq<byte>, kept: seq<byte>)
    requires IsImage(tramp.image, moved, kept) && |moved| <= MOST_CODE
    ensures tramp.CbRestore() == |kept| && tramp.Restore() == Restored(moved, kept)
  {
    LongSmall(PB_REMAIN - (|moved| + SIZE_OF_JMP_INDIRECT));
    assert JumpThrough(|moved|, PB_REMAIN)[5] == 0;
    var restore := tramp.Restore();
    forall k | 0 <= k < |kept| ensures restore[k] == Restored(moved, kept)[k] {
      assert restore[k] == tramp.image[RB_RESTORE + k] == ImageByte(moved, kept, RB_RESTORE + k);
    }
  }

  /** The moved code is there, and behind it is a jump through `pbRemain`. */
  lemma CodeRead(image: seq<byte>, t: int, moved: seq<byte>, kept: seq<byte>)
    requires IsImage(image, moved, kept)
    ensures image[..|moved|] == moved
    ensures IsJumpThrough(image[|moved|..]) && Through(image[|moved|..], t + |moved|) == t + PB_REMAIN
  {
    var n := |moved|;
    var back := JumpThrough(n, PB_REMAIN);
    forall k | 0 <= k < n ensures image[k] == moved[k] { assert image[k] == ImageByte(moved, kept, k); }
    forall k | 0 <= k < 6 ensures image[n + k] == back[k] { assert image[n + k] == ImageByte(moved, kept, n + k); }
    assert image[n..] == back + image[n + 6..];
    JumpsThrough(t, n, PB_REMAIN, image[n + 6..]);
  }

  /** A function that is spoiled: the byte kept first is not its own any more. */
  lemma SpoiledIsLost(tramp: Trampoline, src: int, dst: int)
    requires IsImage(tramp.image, Moved(X64(SOME_DECODER), SPOILED, src, dst, SIZE_OF_JMP).0, SPOILED[..19])
    ensures tramp.Restore() == [0] + SPOILED[1..19] != SPOILED[..19]
  {
    SpoiledSpoils(src, dst);
    RestoreRead(tramp, Moved(X64(SOME_DECODER), SPOILED, src, dst, SIZE_OF_JMP).0, SPOILED[..19]);
  }
}
