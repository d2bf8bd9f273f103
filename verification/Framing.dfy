/** What a reader makes of bytes that need not be all of a record, or a record as this
    program writes it: cut short, of any length and under any mask. */
module Framing {
  import opened Bytes
  import opened Varint
  import opened Records

  // ---------------------------------------------------------------- the bytes sent

  /** An actor_id of small numbers, byte by byte. */
  lemma IdBytes(a: ActorId)
    requires 0 <= a.axid < 0x80 && 0 <= a.timestamp < 0x80 && 0 <= a.id < 0x80 && 0 <= a.sid < 0x80
    ensures Fits64(Ints(a))
    ensures EncodeId(a) == [15, 6, a.axid as byte, a.timestamp as byte, a.id as byte, a.sid as byte]
  {
    PowValues();
    assert |Ints(a)| == 4;
    SmallInts([a.axid, a.timestamp, a.id, a.sid]);
    assert EncodeInts(Ints(a)) == [a.axid as byte, a.timestamp as byte, a.id as byte, a.sid as byte] by {
      SmallInts([a.timestamp, a.id, a.sid]);
      SmallInts([a.id, a.sid]);
      SmallInts([a.sid]);
      SmallInts([]);
    }
  }

  lemma SmallInts(vs: seq<int>)
    requires forall i | 0 <= i < |vs| :: 0 <= vs[i] < 0x80
    ensures Fits64(vs) && SumSizes(vs) == |vs|
    ensures vs != [] ==> Fits64(vs[1..]) && EncodeInts(vs) == [vs[0] as byte] + EncodeInts(vs[1..])
  {
    PowValues();
    if vs != [] { SmallInts(vs[1..]); }
  }

  /** An actor_exit with a short message, and one without. */
  lemma ExitBytes(typ: int, errmsg: seq<byte>)
    requires 0 <= typ < 0x80 && |errmsg| < 0x70
    ensures ExitOk(ActorExit(typ, errmsg))
    ensures EncodeExit(ActorExit(typ, errmsg))
         == if errmsg == [] then [1, 3, typ as byte] else [3, (|errmsg| + 4) as byte, typ as byte, |errmsg| as byte] + errmsg
  {
    PowValues();
  }

  // ------------------------------------------------------------------- cut short

  /** An integer that is cut short is an overflow. */
  lemma IntCut(ty: Ty, v: int, m: nat)
    requires ty.Valid() && ty.Fits(v) && m < |Encode(ty, v)|
    ensures Decode(ty, Encode(ty, v)[..m]) == Err(Overflow)
  {
    if m > 0 {
      FitsCount(ty, v);
      var k := ByteCount(Abs(v));
      ReadTag(v < 0, k);
      assert Encode(ty, v)[..m][0] == Encode(ty, v)[0];
    }
  }

  /** A front part of two pieces is one of the first, or all of that and one of the
      second. */
  lemma FrontPart(a: seq<byte>, b: seq<byte>, m: nat)
    requires m <= |a| + |b|
    ensures (a + b)[..m] == if m < |a| then a[..m] else a + b[..m - |a|]
  {
  }

  lemma StrCut(s: seq<byte>, m: nat)
    requires |s| <= MAX_I32 && m < |EncodeStr(s)|
    ensures DecodeStr(EncodeStr(s)[..m]) == Err(Overflow)
  {
    PowValues();
    var head := Bytes32(|s|);
    FrontPart(head, s, m);
    if m < |head| { IntCut(I32, |s|, m); } else { ReadWritten(I32, |s|, s[..m - |head|]); }
  }

  lemma {:induction false} IntsCut(tag: int, i: nat, vs: seq<int>, ws: seq<int>, m: nat)
    requires |vs| == |ws| && Fits64(ws) && m < |EncodeInts(ws)|
    requires forall j | i <= j < i + |vs| :: Bit(tag, j)
    ensures DecodeInts(EncodeInts(ws)[..m], tag, i, vs) == Err(Overflow)
    decreases |vs|
  {
    var first := Encode(I64, ws[0]);
    FrontPart(first, EncodeInts(ws[1..]), m);
    if m < |first| {
      IntCut(I64, ws[0], m);
    } else {
      var back := EncodeInts(ws[1..])[..m - |first|];
      ReadWritten(I64, ws[0], back);
      assert (first + back)[|first|..] == back;
      IntsCut(tag, i + 1, vs[1..], ws[1..], m - |first|);
    }
  }

  lemma HeaderCut(tag: nat, len: nat, m: nat)
    requires tag < Pow(8) / 2 && len <= MAX_I32 && m < HeadSize(tag, len)
    ensures Header(Framed(tag, len, [])[..m]) == Err(Overflow)
  {
    PowValues();
    var a, b := Encode(I64, tag), Bytes32(len);
    assert Framed(tag, len, []) == a + b;
    FrontPart(a, b, m);
    if m < |a| {
      IntCut(I64, tag, m);
    } else {
      ReadWritten(I64, tag, b[..m - |a|]);
      assert (a + b[..m - |a|])[|a|..] == b[..m - |a|];
      IntCut(I32, len, m - |a|);
    }
  }

  /** A frame that is cut short: in its head, or in its body. */
  lemma FrameCut(tag: nat, len: nat, body: seq<byte>, m: nat)
    requires tag < Pow(8) / 2 && len <= MAX_I32 && m < HeadSize(tag, len) + |body|
    ensures var bs, off := Framed(tag, len, body)[..m], HeadSize(tag, len);
            if m < off then Header(bs) == Err(Overflow)
            else Header(bs) == Ok((tag, len), off) && bs[off..] == body[..m - off]
  {
    var head, off := Framed(tag, len, []), HeadSize(tag, len);
    assert Framed(tag, len, body) == head + body && |head| == off;
    FrontPart(head, body, m);
    if m < off {
      HeaderCut(tag, len, m);
    } else {
      assert Framed(tag, len, body)[..m] == Framed(tag, len, body[..m - off]);
      ReadHeader(tag, len, body[..m - off]);
      assert Framed(tag, len, body[..m - off])[off..] == body[..m - off];
    }
  }

  /** An actor_id that is cut short anywhere is an overflow for the reader, and for
      who passes over it: it is never read as another one. */
  lemma IdCut(a: ActorId, m: nat, into: ActorId)
    requires Fits64(Ints(a)) && m < |EncodeId(a)|
    ensures DecodeId(EncodeId(a)[..m], into) == Err(Overflow)
    ensures SkipRecord(EncodeId(a)[..m]) == Err(Overflow)
  {
    PowValues();
    var body, off := EncodeInts(Ints(a)), HeadSize(15, SizeOfId(a));
    IdLength(a);
    IdWritten(a);
    FrameCut(15, SizeOfId(a), body, m);
    if m >= off {
      AllBits(15);
      IntsCut(15, 0, Ints(into), Ints(a), m - off);
    }
  }

  lemma ExitBodyCut(x: ActorExit, m: nat, into: ActorExit)
    requires ExitOk(x) && m < |ExitBody(x)|
    ensures ExitKnown(ExitBody(x)[..m], ExitTag(x), into) == Err(Overflow)
  {
    Bits(ExitTag(x));
    var first := Encode(I8, x.typ);
    FrontPart(first, StrField(x.errmsg), m);
    if m < |first| {
      IntCut(I8, x.typ, m);
    } else {
      var back := StrField(x.errmsg)[..m - |first|];
      ReadWritten(I8, x.typ, back);
      assert (first + back)[|first|..] == back;
      StrCut(x.errmsg, m - |first|);
    }
  }

  /** And so is an actor_exit. */
  lemma ExitCut(x: ActorExit, m: nat, into: ActorExit)
    requires ExitOk(x) && m < |EncodeExit(x)|
    ensures DecodeExit(EncodeExit(x)[..m], into) == Err(Overflow)
    ensures SkipRecord(EncodeExit(x)[..m]) == Err(Overflow)
  {
    var off := HeadSize(ExitTag(x), SizeOfExit(x));
    ExitLength(x);
    ExitWritten(x);
    FrameCut(ExitTag(x), SizeOfExit(x), ExitBody(x), m);
    if m >= off { ExitBodyCut(x, m - off, into); }
  }

  // ------------------------------------------------------------- any mask, any length

  /** What is read of a 32-bit number: a negative one of four bytes loses its sign. */
  lemma ReadLength(v: int, rest: seq<byte>)
    requires I32Fits(v)
    ensures I32.Fits(v) && Decode(I32, Encode(I32, v) + rest).Ok?
    ensures var r := Decode(I32, Encode(I32, v) + rest);
            && r.used == |Encode(I32, v)|
            && (r.value < 0 <==> -0x100_0000 < v < 0 || v == -0x8000_0000)
            && (r.value >= 0 ==> r.value == Abs(v))
  {
    PowValues();
    ReadWritten(I32, v, rest);
  }

  /** A string whose length was written as the number v: a negative length is refused,
      unless it has lost its sign. */
  lemma AnyLength(v: int, rest: seq<byte>)
    requires I32Fits(v)
    ensures I32.Fits(v)
    ensures DecodeStr(Encode(I32, v) + rest)
         == if -0x100_0000 < v < 0 || v == -0x8000_0000 then Err(BadLength)
            else if Abs(v) > |rest| then Err(Overflow)
            else Ok(rest[..Abs(v)], |Encode(I32, v)| + Abs(v))
  {
    ReadLength(v, rest);
    var head := Encode(I32, v);
    if Abs(v) <= |rest| { assert (head + rest)[|head|..|head| + Abs(v)] == rest[..Abs(v)]; }
  }

  /** The fields that a mask says are there, from field i on. */
  function SomeInts(tag: int, i: nat, ws: seq<int>): seq<byte>
    requires Fits64(ws)
    decreases |ws|
  {
    if ws == [] then [] else (if Bit(tag, i) then Encode(I64, ws[0]) else []) + SomeInts(tag, i + 1, ws[1..])
  }

  /** Each of them is read, and the others stay as they were. */
  function Merged(tag: int, i: nat, vs: seq<int>, ws: seq<int>): (r: seq<int>)
    requires |vs| == |ws| && Fits64(ws)
    ensures |r| == |vs| && forall j | 0 <= j < |vs| :: r[j] == if Bit(tag, i + j) then ReadBack(ws[j]) else vs[j]
    decreases |vs|
  {
    if vs == [] then [] else [if Bit(tag, i) then ReadBack(ws[0]) else vs[0]] + Merged(tag, i + 1, vs[1..], ws[1..])
  }

  lemma {:induction false} SomeRead(tag: int, i: nat, vs: seq<int>, ws: seq<int>, rest: seq<byte>)
    requires |vs| == |ws| && Fits64(ws)
    ensures DecodeInts(SomeInts(tag, i, ws) + rest, tag, i, vs) == Ok(Merged(tag, i, vs, ws), |SomeInts(tag, i, ws)|)
    decreases |vs|
  {
    if vs != [] {
      var first := if Bit(tag, i) then Encode(I64, ws[0]) else [];
      var back := SomeInts(tag, i + 1, ws[1..]);
      Regroup(first, back, rest);
      SomeRead(tag, i + 1, vs[1..], ws[1..], rest);
      assert (first + (back + rest))[|first|..] == back + rest;
      if Bit(tag, i) { ReadField(ws[0], back + rest); }
    }
  }

  /** Where a reader ends that has used n of the bytes there are, when the record says
      it has len of them. */
  function EndOf(n: nat, len: int): int { if len > n then len else n }

  predicate IdFits(a: ActorId): (r: bool)
    ensures r ==> Fits64(Ints(a))
  {
    I64.Fits(a.axid) && I64.Fits(a.timestamp) && I64.Fits(a.id) && I64.Fits(a.sid)
  }

  /** Any actor_id record, under any mask and with any length, read into any value: a
      field is read if and only if its bit is set, and others stay as they were; a
      length past the bytes there are is an overflow, a greater one than the fields
      take skips what follows them, and a smaller one does not matter. */
  lemma IdRead(tag: nat, len: nat, a: ActorId, rest: seq<byte>, into: ActorId)
    requires tag < Pow(8) / 2 && len <= MAX_I32 && IdFits(a)
    ensures var body := SomeInts(tag, 0, Ints(a));
            var bs, n := Framed(tag, len, body) + rest, HeadSize(tag, len) + |body|;
            DecodeId(bs, into)
               == if len > |bs| then Err(Overflow)
                  else Ok(ActorId(if tag % 2 == 1 then ReadBack(a.axid) else into.axid,
                                  if (tag / 2) % 2 == 1 then ReadBack(a.timestamp) else into.timestamp,
                                  if (tag / 4) % 2 == 1 then ReadBack(a.id) else into.id,
                                  if (tag / 8) % 2 == 1 then ReadBack(a.sid) else into.sid), EndOf(n, len))
    ensures var bs := Framed(tag, len, SomeInts(tag, 0, Ints(a))) + rest;
            SkipRecord(bs) == if len > |bs| then Err(Overflow) else Ok((), EndOf(HeadSize(tag, len), len))
  {
    var body := SomeInts(tag, 0, Ints(a));
    ReadFramed(tag, len, body, rest);
    SomeRead(tag, 0, Ints(into), Ints(a), rest);
    var vs := Merged(tag, 0, Ints(into), Ints(a));
    Bits(tag);
    IdParts(Framed(tag, len, body) + rest, tag, len, HeadSize(tag, len), body + rest, vs, |body|, into);
  }

  /** The fields of an actor_exit that a mask says are there. */
  function SomeExit(tag: int, x: ActorExit): seq<byte>
    requires ExitOk(x)
  {
    (if Bit(tag, 0) then Encode(I8, x.typ) else []) + if Bit(tag, 1) then EncodeStr(x.errmsg) else []
  }

  /** And any actor_exit record. */
  lemma ExitRead(tag: nat, len: nat, x: ActorExit, rest: seq<byte>, into: ActorExit)
    requires tag < Pow(8) / 2 && len <= MAX_I32 && ExitOk(x)
    ensures var body := SomeExit(tag, x);
            var bs, n := Framed(tag, len, body) + rest, HeadSize(tag, len) + |body|;
            DecodeExit(bs, into)
               == if len > |bs| then Err(Overflow)
                  else Ok(ActorExit(if tag % 2 == 1 then x.typ else into.typ,
                                    if (tag / 2) % 2 == 1 then x.errmsg else into.errmsg), EndOf(n, len))
    ensures var bs := Framed(tag, len, SomeExit(tag, x)) + rest;
            SkipRecord(bs) == if len > |bs| then Err(Overflow) else Ok((), EndOf(HeadSize(tag, len), len))
  {
    Bits(tag);
    ReadFramed(tag, len, SomeExit(tag, x), rest);
    ExitKnownRead(tag, x, rest, into);
  }

  lemma ExitKnownRead(tag: int, x: ActorExit, rest: seq<byte>, into: ActorExit)
    requires ExitOk(x)
    ensures ExitKnown(SomeExit(tag, x) + rest, tag, into)
         == Ok(ActorExit(if Bit(tag, 0) then x.typ else into.typ, if Bit(tag, 1) then x.errmsg else into.errmsg), |SomeExit(tag, x)|)
  {
    var a, b := if Bit(tag, 0) then Encode(I8, x.typ) else [], if Bit(tag, 1) then EncodeStr(x.errmsg) else [];
    Regroup(a, b, rest);
    assert (a + (b + rest))[|a|..] == b + rest;
    if Bit(tag, 0) { ReadWritten(I8, x.typ, b + rest); }
    if Bit(tag, 1) { StrRoundTrip(x.errmsg, rest); }
  }
}
