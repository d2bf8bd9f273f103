/** Tagged records: a bit mask of the fields, the length of the whole record
    with the mask and the length itself, and the fields. */
module Records {
  import opened Bytes
  import opened Varint

  const MAX_I32: nat := 0x7FFF_FFFF

  /** Field i of the record is present. */
  predicate Bit(tag: int, i: nat)
  {
    (tag / Two(i)) % 2 == 1
  }

  function Two(i: nat): (r: nat)
    ensures r > 0
  {
    if i == 0 then 1 else 2 * Two(i - 1)
  }

  predicate I32Fits(n: int) { -0x8000_0000 <= n <= MAX_I32 }

  lemma I32Range(n: int)
    requires I32Fits(n)
    ensures I32.Fits(n)
  {
    PowValues();
  }

  function Size32(n: nat): (r: nat)
    requires n <= MAX_I32
    ensures 1 <= r <= 5
  {
    PowValues();
    SizeOf(I32, n)
  }

  function Bytes32(n: nat): (r: seq<byte>)
    requires n <= MAX_I32
    ensures |r| == Size32(n)
  {
    PowValues();
    SizeCoversLength(I32, n);
    Encode(I32, n)
  }

  // -------------------------------------------------------------- the length field

  /** `size += size_of(size + size_of(size))`. */
  function Total(s: nat): (r: nat)
    requires s + 5 <= MAX_I32
    ensures s < r <= s + 5
  {
    s + Size32(s + Size32(s))
  }

  /** The length field counts itself: the size computed from a guess of the size
      of the length field is the size with the length field as it is written. */
  lemma LengthIsFixedPoint(s: nat)
    requires s + 5 <= MAX_I32
    ensures Total(s) == s + |Bytes32(Total(s))|
  {
    PowValues();
  }

  /** Where a reader that has used off bytes of the record lands. */
  function Land(off: nat, len: int, avail: nat): (r: Result<()>)
    ensures r.Ok? && off <= avail ==> r.used <= avail
  {
    if len >= 0 && len > off then (if len <= avail then Ok((), len) else Err(Overflow)) else Ok((), off)
  }

  /** A mask and a length in front of a body. */
  function Framed(tag: nat, len: nat, body: seq<byte>): seq<byte>
    requires tag < Pow(8) / 2 && len <= MAX_I32
  {
    Encode(I64, tag) + Bytes32(len) + body
  }

  function HeadSize(tag: nat, len: nat): nat
    requires tag < Pow(8) / 2 && len <= MAX_I32
  {
    |Encode(I64, tag)| + |Bytes32(len)|
  }

  /** The mask and length at the front of bs, and where the fields start. */
  function Header(bs: seq<byte>): (r: Result<(int, int)>)
    ensures r.Ok? ==> r.used <= |bs|
  {
    match Decode(I64, bs)
    case Err(e) => Err(e)
    case Ok(tag, n) =>
      match Decode(I32, bs[n..])
      case Err(e) => Err(e)
      case Ok(len, m) => Ok((tag, len), n + m)
  }

  lemma ReadHeader(tag: nat, len: nat, body: seq<byte>)
    requires tag < Pow(8) / 2 && len <= MAX_I32
    ensures Header(Framed(tag, len, body)) == Ok((tag, len), HeadSize(tag, len))
  {
    PowValues();
    var bs := Framed(tag, len, body);
    assert bs == Encode(I64, tag) + (Bytes32(len) + body);
    ReadWritten(I64, tag, Bytes32(len) + body);
    assert bs[|Encode(I64, tag)|..] == Bytes32(len) + body;
    ReadWritten(I32, len, body);
  }

  /** `skip_read_compatible`. */
  function SkipRecord(bs: seq<byte>): Result<()> {
    match Header(bs)
    case Err(e) => Err(e)
    case Ok((tag, len), off) => Land(off, len, |bs|)
  }

  // ------------------------------------------------------------------- actor_id

  datatype ActorId = ActorId(axid: int, timestamp: int, id: int, sid: int)

  function Ints(a: ActorId): seq<int> { [a.axid, a.timestamp, a.id, a.sid] }

  predicate Fits64(vs: seq<int>) { forall i | 0 <= i < |vs| :: I64.Fits(vs[i]) }

  function SumSizes(vs: seq<int>): (r: nat)
    requires Fits64(vs)
    ensures r <= 9 * |vs|
  {
    if vs == [] then 0
    else
      SizeCoversLength(I64, vs[0]);
      SizeOf(I64, vs[0]) + SumSizes(vs[1..])
  }

  function EncodeInts(vs: seq<int>): seq<byte>
    requires Fits64(vs)
  {
    if vs == [] then [] else Encode(I64, vs[0]) + EncodeInts(vs[1..])
  }

  /** Reads fields i and up: each is read if its bit is set and otherwise keeps
      the value it had in vs. */
  function DecodeInts(bs: seq<byte>, tag: int, i: nat, vs: seq<int>): (r: Result<seq<int>>)
    ensures r.Ok? ==> |r.value| == |vs| && r.used <= |bs|
    decreases |vs|
  {
    if vs == [] then Ok([], 0)
    else
      match (if Bit(tag, i) then Decode(I64, bs) else Ok(vs[0], 0))
      case Err(e) => Err(e)
      case Ok(v, n) =>
        match DecodeInts(bs[n..], tag, i + 1, vs[1..])
        case Err(e) => Err(e)
        case Ok(more, m) => Ok([v] + more, n + m)
  }

  function SizeOfId(a: ActorId): nat
    requires Fits64(Ints(a))
  {
    Total(SumSizes(Ints(a)) + 1)
  }

  function EncodeId(a: ActorId): seq<byte>
    requires Fits64(Ints(a))
  {
    PowValues();
    Framed(15, SizeOfId(a), EncodeInts(Ints(a)))
  }

  /** The length in the header and the fields, read into the value a. */
  function IdFields(bs: seq<byte>, a: ActorId): (r: Result<(int, ActorId)>)
    ensures r.Ok? ==> r.used <= |bs|
  {
    match Header(bs)
    case Err(e) => Err(e)
    case Ok((tag, len), off) =>
      match DecodeInts(bs[off..], tag, 0, Ints(a))
      case Err(e) => Err(e)
      case Ok(vs, n) => Ok((len, ActorId(vs[0], vs[1], vs[2], vs[3])), off + n)
  }

  /** `read` into the value a. */
  function DecodeId(bs: seq<byte>, a: ActorId): Result<ActorId> {
    match IdFields(bs, a)
    case Err(e) => Err(e)
    case Ok((len, read), n) =>
      match Land(n, len, |bs|)
      case Err(e) => Err(e)
      case Ok(_, used) => Ok(read, used)
  }

  // ----------------------------------------------------------------- actor_exit

  datatype ActorExit = ActorExit(typ: int, errmsg: seq<byte>)

  predicate ExitOk(x: ActorExit) { I8.Fits(x.typ) && |x.errmsg| + 32 <= MAX_I32 }

  function EncodeStr(s: seq<byte>): seq<byte>
    requires |s| <= MAX_I32
  {
    Bytes32(|s|) + s
  }

  function SizeOfStr(s: seq<byte>): nat
    requires |s| <= MAX_I32
  {
    Size32(|s|) + |s|
  }

  function DecodeStr(bs: seq<byte>): (r: Result<seq<byte>>)
    ensures r.Ok? ==> r.used <= |bs|
  {
    match Decode(I32, bs)
    case Err(e) => Err(e)
    case Ok(len, n) =>
      if len < 0 then Err(BadLength)
      else if n + len > |bs| then Err(Overflow)
      else Ok(bs[n..n + len], n + len)
  }

  function ExitTag(x: ActorExit): nat { if x.errmsg == [] then 1 else 3 }

  function SizeOfExit(x: ActorExit): nat
    requires ExitOk(x)
  {
    SizeCoversLength(I8, x.typ);
    Total(SizeOf(I8, x.typ) + (if x.errmsg == [] then 0 else SizeOfStr(x.errmsg)) + 1)
  }

  function StrField(s: seq<byte>): seq<byte>
    requires |s| <= MAX_I32
  {
    if s == [] then [] else EncodeStr(s)
  }

  function ExitBody(x: ActorExit): seq<byte>
    requires ExitOk(x)
  {
    Encode(I8, x.typ) + StrField(x.errmsg)
  }

  function EncodeExit(x: ActorExit): seq<byte>
    requires ExitOk(x)
  {
    PowValues();
    Framed(ExitTag(x), SizeOfExit(x), ExitBody(x))
  }

  /** The known fields that the mask says are there, read into the value x. */
  function ExitKnown(bs: seq<byte>, tag: int, x: ActorExit): (r: Result<ActorExit>)
    ensures r.Ok? ==> r.used <= |bs|
  {
    match (if Bit(tag, 0) then Decode(I8, bs) else Ok(x.typ, 0))
    case Err(e) => Err(e)
    case Ok(typ, n) =>
      match (if Bit(tag, 1) then DecodeStr(bs[n..]) else Ok(x.errmsg, 0))
      case Err(e) => Err(e)
      case Ok(errmsg, m) => Ok(ActorExit(typ, errmsg), n + m)
  }

  /** The length in the header and the fields, read into the value x. */
  function ExitFields(bs: seq<byte>, x: ActorExit): (r: Result<(int, ActorExit)>)
    ensures r.Ok? ==> r.used <= |bs|
  {
    match Header(bs)
    case Err(e) => Err(e)
    case Ok((tag, len), off) =>
      match ExitKnown(bs[off..], tag, x)
      case Err(e) => Err(e)
      case Ok(read, n) => Ok((len, read), off + n)
  }

  /** `read` into the value x. */
  function DecodeExit(bs: seq<byte>, x: ActorExit): Result<ActorExit> {
    match ExitFields(bs, x)
    case Err(e) => Err(e)
    case Ok((len, read), n) =>
      match Land(n, len, |bs|)
      case Err(e) => Err(e)
      case Ok(_, used) => Ok(read, used)
  }

  // -------------------------------------------------------------------- the laws

  /** Integer fields that keep both their value and their length. */
  predicate Kept(vs: seq<int>) { forall i | 0 <= i < |vs| :: vs[i] >= 0 || vs[i] == -0x8000_0000_0000_0000 }

  /** Integer fields whose computed size is the number of bytes written. */
  predicate Sized(vs: seq<int>) { forall i | 0 <= i < |vs| :: vs[i] >= 0 || vs[i] <= -0x100_0000_0000_0000 }

  lemma {:induction false} IntsLength(vs: seq<int>)
    requires Fits64(vs)
    ensures |EncodeInts(vs)| <= SumSizes(vs)
    ensures |EncodeInts(vs)| == SumSizes(vs) <==> Sized(vs)
  {
    if vs != [] {
      IntsLength(vs[1..]);
      SizeCoversLength(I64, vs[0]);
      assert vs == [vs[0]] + vs[1..];
      assert Sized(vs) <==> (vs[0] >= 0 || vs[0] <= -0x100_0000_0000_0000) && Sized(vs[1..]);
    }
  }

  predicate AllFaithful(ws: seq<int>) { ws == [] || (Faithful(I64, ws[0]) && AllFaithful(ws[1..])) }

  /** One field read, then the others. */
  lemma StepInts(bs: seq<byte>, tag: int, i: nat, vs: seq<int>, v: int, n: nat, tail: seq<byte>)
    requires n <= |bs| && vs != [] && Bit(tag, i) && Decode(I64, bs) == Ok(v, n) && tail == bs[n..]
    requires DecodeInts(tail, tag, i + 1, vs[1..]).Ok?
    ensures var more := DecodeInts(tail, tag, i + 1, vs[1..]);
            DecodeInts(bs, tag, i, vs) == Ok([v] + more.value, n + more.used)
  {
  }

  /** The value a written field is read as. */
  function ReadBack(w: int): int
    requires I64.Fits(w)
  {
    if w < 0 then Mangled(I64, w) else w
  }

  lemma ReadField(w: int, rest: seq<byte>)
    requires I64.Fits(w)
    ensures Decode(I64, Encode(I64, w) + rest) == Ok(ReadBack(w), |Encode(I64, w)|)
    ensures ReadBack(w) == w <==> Faithful(I64, w)
  {
    ReadWritten(I64, w, rest);
    RoundTrip(I64, w, rest);
  }

  /** Bytes at an offset, split in two. */
  lemma Split(bs: seq<byte>, off: nat, front: seq<byte>, back: seq<byte>)
    requires off <= |bs| && bs[off..] == front + back
    ensures off + |front| <= |bs| && bs[off + |front|..] == back
  {
    assert bs[off + |front|..] == bs[off..][|front|..];
  }

  lemma UnfoldInts(ws: seq<int>, rest: seq<byte>)
    requires Fits64(ws) && ws != []
    ensures EncodeInts(ws) + rest == Encode(I64, ws[0]) + (EncodeInts(ws[1..]) + rest)
    ensures |EncodeInts(ws)| == |Encode(I64, ws[0])| + |EncodeInts(ws[1..])|
  {
    Regroup(Encode(I64, ws[0]), EncodeInts(ws[1..]), rest);
  }

  /** Reading the fields that were written, all bits set: every field is read in
      turn, and the values are right just when they are all faithful. */
  lemma {:induction false} ReadInts(tag: int, i: nat, vs: seq<int>, ws: seq<int>, rest: seq<byte>)
    requires |vs| == |ws| && Fits64(ws)
    requires forall j | i <= j < i + |vs| :: Bit(tag, j)
    ensures var r := DecodeInts(EncodeInts(ws) + rest, tag, i, vs);
            && r.Ok? && r.used == |EncodeInts(ws)| && |r.value| == |ws|
            && (r.value == ws <==> AllFaithful(ws))
    decreases |vs|
  {
    if vs != [] {
      var w, tail := ws[0], EncodeInts(ws[1..]) + rest;
      UnfoldInts(ws, rest);
      ReadField(w, tail);
      ReadInts(tag, i + 1, vs[1..], ws[1..], rest);
      StepInts(EncodeInts(ws) + rest, tag, i, vs, ReadBack(w), |Encode(I64, w)|, tail);
      SameSeq(ReadBack(w), DecodeInts(tail, tag, i + 1, vs[1..]).value, ws);
    }
  }

  lemma Regroup(a: seq<byte>, b: seq<byte>, c: seq<byte>)
    ensures (a + b) + c == a + (b + c)
  {
  }

  lemma SameSeq(v: int, vs: seq<int>, ws: seq<int>)
    requires ws != []
    ensures [v] + vs == ws <==> v == ws[0] && vs == ws[1..]
  {
    assert ws == [ws[0]] + ws[1..];
    if [v] + vs == ws { assert ws[1..] == vs; }
  }

  lemma FaithfulInts(ws: seq<int>)
    requires Fits64(ws)
    ensures AllFaithful(ws) && Sized(ws) <==> Kept(ws)
  {
    if ws != [] {
      FaithfulInts(ws[1..]);
      assert ws == [ws[0]] + ws[1..];
      assert Sized(ws) <==> (ws[0] >= 0 || ws[0] <= -0x100_0000_0000_0000) && Sized(ws[1..]);
      assert Kept(ws) <==> (ws[0] >= 0 || ws[0] == -0x8000_0000_0000_0000) && Kept(ws[1..]);
      PowValues();
      assert I64.Fits(ws[0]);
    }
  }

  lemma Bits(tag: int)
    ensures Bit(tag, 0) <==> tag % 2 == 1
    ensures Bit(tag, 1) <==> (tag / 2) % 2 == 1
    ensures Bit(tag, 2) <==> (tag / 4) % 2 == 1
    ensures Bit(tag, 3) <==> (tag / 8) % 2 == 1
  {
    assert Two(1) == 2 && Two(2) == 4 && Two(3) == 8;
  }

  lemma AllBits(tag: int)
    requires tag % 16 == 15
    ensures forall j | 0 <= j < 4 :: Bit(tag, j)
  {
    var q := tag / 16;
    assert tag == 16 * q + 15 && tag / 2 == 8 * q + 7 && tag / 4 == 4 * q + 3 && tag / 8 == 2 * q + 1;
    assert Two(0) == 1 && Two(1) == 2 && Two(2) == 4 && Two(3) == 8;
    forall j | 0 <= j < 4 ensures Bit(tag, j) {
      if j == 0 { } else if j == 1 { } else if j == 2 { } else { assert j == 3; }
    }
  }

  /** A whole record under a mask and a length, with more bytes behind it. */
  lemma ReadFramed(tag: nat, len: nat, body: seq<byte>, rest: seq<byte>)
    requires tag < Pow(8) / 2 && len <= MAX_I32
    ensures var off := HeadSize(tag, len);
            var bs := Framed(tag, len, body) + rest;
            && Header(bs) == Ok((tag, len), off)
            && |bs| == off + |body| + |rest|
            && bs[off..] == body + rest
  {
    var bs := Framed(tag, len, body) + rest;
    assert bs == Framed(tag, len, body + rest);
    ReadHeader(tag, len, body + rest);
    assert bs[HeadSize(tag, len)..] == body + rest;
  }

  /** Reading an actor_id whose header and fields are known to read well. */
  lemma IdParts(bs: seq<byte>, tag: int, len: int, off: nat, fields: seq<byte>, vs: seq<int>, n: nat, into: ActorId)
    requires Header(bs) == Ok((tag, len), off) && bs[off..] == fields
    requires DecodeInts(fields, tag, 0, Ints(into)) == Ok(vs, n)
    ensures var land := Land(off + n, len, |bs|);
            |vs| == 4 &&
            DecodeId(bs, into)
            == if land.Err? then Err(land.error) else Ok(ActorId(vs[0], vs[1], vs[2], vs[3]), land.used)
  {
    assert |Ints(into)| == 4;
  }

  /** The parts of what is read of an actor_id, header and fields. */
  lemma IdFieldsRead(bs: seq<byte>, into: ActorId, tag: int, len: int, off: nat, f: Result<seq<int>>)
    requires Header(bs) == Ok((tag, len), off) && DecodeInts(bs[off..], tag, 0, Ints(into)) == f
    ensures f.Err? ==> IdFields(bs, into) == Err(f.error)
    ensures f.Ok? ==> |f.value| == 4 && IdFields(bs, into) == Ok((len, ActorId(f.value[0], f.value[1], f.value[2], f.value[3])), off + f.used)
  {
  }

  /** An actor_id as it is written: the header, and then the fields. */
  lemma IdWritten(a: ActorId)
    requires Fits64(Ints(a))
    ensures 15 < Pow(8) / 2 && EncodeId(a) == Framed(15, SizeOfId(a), []) + EncodeInts(Ints(a))
    ensures |Framed(15, SizeOfId(a), [])| == HeadSize(15, SizeOfId(a))
  {
    PowValues();
  }

  /** An actor_exit as it is written. */
  lemma ExitWritten(x: ActorExit)
    requires ExitOk(x)
    ensures ExitTag(x) < Pow(8) / 2
    ensures EncodeExit(x) == Framed(ExitTag(x), SizeOfExit(x), []) + ExitBody(x)
    ensures |Framed(ExitTag(x), SizeOfExit(x), [])| == HeadSize(ExitTag(x), SizeOfExit(x))
  {
    PowValues();
  }

  lemma SameId(vs: seq<int>, a: ActorId)
    requires |vs| == 4
    ensures ActorId(vs[0], vs[1], vs[2], vs[3]) == a <==> vs == Ints(a)
  {
  }

  /** What an actor_id reader makes of four written fields under any mask with
      the four known bits set and any length. */
  lemma ReadIdFields(bs: seq<byte>, tag: int, len: int, off: nat, a: ActorId, more: seq<byte>, into: ActorId)
    requires Fits64(Ints(a)) && tag % 16 == 15
    requires Header(bs) == Ok((tag, len), off) && bs[off..] == EncodeInts(Ints(a)) + more
    ensures var r := DecodeId(bs, into);
            var land := Land(off + |EncodeInts(Ints(a))|, len, |bs|);
            && (land.Err? ==> r == Err(land.error))
            && (land.Ok? ==> r.Ok? && r.used == land.used && (r.value == a <==> AllFaithful(Ints(a))))
  {
    var vs := ReadFourInts(tag, Ints(into), Ints(a), more);
    IdParts(bs, tag, len, off, EncodeInts(Ints(a)) + more, vs, |EncodeInts(Ints(a))|, into);
    IdIsRead(DecodeId(bs, into), Land(off + |EncodeInts(Ints(a))|, len, |bs|), vs, a);
  }

  lemma IdIsRead(r: Result<ActorId>, land: Result<()>, vs: seq<int>, a: ActorId)
    requires |vs| == 4 && (vs == Ints(a) <==> AllFaithful(Ints(a)))
    requires r == if land.Err? then Err(land.error) else Ok(ActorId(vs[0], vs[1], vs[2], vs[3]), land.used)
    ensures land.Err? ==> r == Err(land.error)
    ensures land.Ok? ==> r.Ok? && r.used == land.used && (r.value == a <==> AllFaithful(Ints(a)))
  {
    SameId(vs, a);
  }

  lemma ReadFourInts(tag: int, vs: seq<int>, ws: seq<int>, more: seq<byte>) returns (back: seq<int>)
    requires Fits64(ws) && |vs| == |ws| == 4 && tag % 16 == 15
    ensures DecodeInts(EncodeInts(ws) + more, tag, 0, vs) == Ok(back, |EncodeInts(ws)|)
    ensures |back| == 4 && (back == ws <==> AllFaithful(ws))
  {
    AllBits(tag);
    ReadInts(tag, 0, vs, ws, more);
    back := DecodeInts(EncodeInts(ws) + more, tag, 0, vs).value;
  }

  /** The size computed for an actor_id is the length written if and only if no
      field is a small negative number. */
  lemma IdLength(a: ActorId)
    requires Fits64(Ints(a))
    ensures SizeOfId(a) >= |EncodeId(a)|
    ensures SizeOfId(a) == |EncodeId(a)| <==> Sized(Ints(a))
  {
    var s := SumSizes(Ints(a)) + 1;
    IntsLength(Ints(a));
    LengthIsFixedPoint(s);
  }

  /** Round trip of actor_id. Whatever the value read into held before and
      whatever follows, reading a written actor_id gives it back and stops just
      behind it if and only if each field is not negative or is the least one. */
  lemma IdRoundTrip(a: ActorId, into: ActorId, rest: seq<byte>)
    requires Fits64(Ints(a))
    ensures DecodeId(EncodeId(a) + rest, into) == Ok(a, |EncodeId(a)|) <==> Kept(Ints(a))
    ensures SkipRecord(EncodeId(a) + rest) == Ok((), |EncodeId(a)|) <==> Sized(Ints(a))
  {
    PowValues();
    var body := EncodeInts(Ints(a));
    ReadFramed(15, SizeOfId(a), body, rest);
    ReadIdFields(EncodeId(a) + rest, 15, SizeOfId(a), HeadSize(15, SizeOfId(a)), a, rest, into);
    IdLength(a);
    FaithfulInts(Ints(a));
  }

  /** A newer record read by this reader of actor_id: more mask bits, more bytes
      behind the known fields, and the length that goes with them. The known
      fields are intact and both reading and passing over end at its end. */
  lemma IdForward(tag: nat, len: nat, a: ActorId, extra: seq<byte>, rest: seq<byte>, into: ActorId)
    requires tag < Pow(8) / 2 && tag % 16 == 15 && len <= MAX_I32 && Fits64(Ints(a)) && AllFaithful(Ints(a))
    requires len == |Framed(tag, len, EncodeInts(Ints(a)) + extra)|
    ensures var whole := Framed(tag, len, EncodeInts(Ints(a)) + extra);
            && DecodeId(whole + rest, into) == Ok(a, |whole|)
            && SkipRecord(whole + rest) == Ok((), |whole|)
  {
    var body := EncodeInts(Ints(a)) + extra;
    ReadFramed(tag, len, body, rest);
    Regroup(EncodeInts(Ints(a)), extra, rest);
    ReadIdFields(Framed(tag, len, body) + rest, tag, len, HeadSize(tag, len), a, extra + rest, into);
  }

  lemma StrRoundTrip(s: seq<byte>, rest: seq<byte>)
    requires |s| <= MAX_I32
    ensures |EncodeStr(s)| == SizeOfStr(s)
    ensures DecodeStr(EncodeStr(s) + rest) == Ok(s, |EncodeStr(s)|)
  {
    PowValues();
    var bs := EncodeStr(s) + rest;
    Regroup(Bytes32(|s|), s, rest);
    ReadWritten(I32, |s|, s + rest);
    var n := |Bytes32(|s|)|;
    assert bs[n..n + |s|] == s;
  }

  /** The known fields of a written actor_exit. */
  lemma ReadExitKnown(tag: int, x: ActorExit, more: seq<byte>, into: ActorExit)
    requires ExitOk(x) && tag % 2 == 1 && ((tag / 2) % 2 == 1 <==> x.errmsg != [])
    ensures ExitKnown(ExitBody(x) + more, tag, into)
         == Ok(ActorExit(x.typ, if x.errmsg == [] then into.errmsg else x.errmsg), |ExitBody(x)|)
  {
    Bits(tag);
    var tail := StrField(x.errmsg) + more;
    Regroup(Encode(I8, x.typ), StrField(x.errmsg), more);
    ReadWritten(I8, x.typ, tail);
    Split(ExitBody(x) + more, 0, Encode(I8, x.typ), tail);
    if x.errmsg != [] { StrRoundTrip(x.errmsg, more); }
  }

  /** What an actor_exit reader makes of the fields, under any mask that says
      which of the known ones are there. */
  lemma ReadExitFields(bs: seq<byte>, tag: int, len: int, off: nat, x: ActorExit, more: seq<byte>, into: ActorExit)
    requires ExitOk(x) && tag % 2 == 1 && ((tag / 2) % 2 == 1 <==> x.errmsg != [])
    requires Header(bs) == Ok((tag, len), off) && bs[off..] == ExitBody(x) + more
    ensures var land := Land(off + |ExitBody(x)|, len, |bs|);
            DecodeExit(bs, into)
            == if land.Err? then Err(land.error)
               else Ok(ActorExit(x.typ, if x.errmsg == [] then into.errmsg else x.errmsg), land.used)
  {
    ReadExitKnown(tag, x, more, into);
  }

  /** The size computed for an actor_exit is the length written. */
  lemma ExitLength(x: ActorExit)
    requires ExitOk(x)
    ensures SizeOfExit(x) == |EncodeExit(x)|
  {
    PowValues();
    SizeCoversLength(I8, x.typ);
    if x.errmsg != [] { StrRoundTrip(x.errmsg, []); }
    LengthIsFixedPoint(|ExitBody(x)| + 1);
  }

  /** Round trip of actor_exit, read into any value. An empty message is not sent,
      so that a message already there stays. */
  lemma ExitRoundTrip(x: ActorExit, into: ActorExit, rest: seq<byte>)
    requires ExitOk(x)
    ensures DecodeExit(EncodeExit(x) + rest, into) == Ok(x, |EncodeExit(x)|)
            <==> (x.errmsg == [] ==> into.errmsg == [])
    ensures SkipRecord(EncodeExit(x) + rest) == Ok((), |EncodeExit(x)|)
  {
    PowValues();
    ReadFramed(ExitTag(x), SizeOfExit(x), ExitBody(x), rest);
    ReadExitFields(EncodeExit(x) + rest, ExitTag(x), SizeOfExit(x), HeadSize(ExitTag(x), SizeOfExit(x)), x, rest, into);
    ExitLength(x);
  }

  /** A newer actor_exit record read by this reader, into any value: a message
      that is there is read, and one that is not leaves the value's own. */
  lemma ExitForward(tag: nat, len: nat, x: ActorExit, extra: seq<byte>, rest: seq<byte>, into: ActorExit)
    requires tag < Pow(8) / 2 && len <= MAX_I32 && ExitOk(x)
    requires tag % 2 == 1 && ((tag / 2) % 2 == 1 <==> x.errmsg != [])
    requires len == |Framed(tag, len, ExitBody(x) + extra)|
    ensures var whole := Framed(tag, len, ExitBody(x) + extra);
            && DecodeExit(whole + rest, into)
               == Ok(ActorExit(x.typ, if x.errmsg == [] then into.errmsg else x.errmsg), |whole|)
            && SkipRecord(whole + rest) == Ok((), |whole|)
  {
    var body := ExitBody(x) + extra;
    ReadFramed(tag, len, body, rest);
    Regroup(ExitBody(x), extra, rest);
    ReadExitFields(Framed(tag, len, body) + rest, tag, len, HeadSize(tag, len), x, extra + rest, into);
  }
}
