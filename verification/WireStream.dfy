/** The buffer a stream reads from and the span it writes to, and the readers and
    writers of the wire format that drive it. */
module WireStream {
  import opened Bytes
  import opened Varint
  import opened Records

  class ZeroCopyBuffer {
    var readMem: seq<byte>
    var readPos: nat
    var writeMem: seq<byte>
    var writePos: nat
    var bad: bool

    ghost predicate Valid()
      reads this
    {
      readPos <= |readMem| && writePos <= |writeMem|
    }

    function Unread(): seq<byte>
      requires Valid()
      reads this
    {
      readMem[readPos..]
    }

    function Written(): seq<byte>
      requires Valid()
      reads this
    {
      writeMem[..writePos]
    }

    function Room(): nat
      requires Valid()
      reads this
    {
      |writeMem| - writePos
    }

    constructor ()
      ensures Valid() && readMem == [] && writeMem == [] && !bad
    {
      readMem, readPos, writeMem, writePos, bad := [], 0, [], 0, false;
    }

    method SetRead(mem: seq<byte>)
      requires Valid()
      modifies this`readMem, this`readPos, this`bad
      ensures Valid() && Unread() == readMem == mem && readPos == 0 && !bad
    {
      readMem, readPos, bad := mem, 0, false;
    }

    method SetWrite(mem: seq<byte>)
      requires Valid()
      modifies this`writeMem, this`writePos, this`bad
      ensures Valid() && writeMem == mem && writePos == 0 && !bad
    {
      writeMem, writePos, bad := mem, 0, false;
    }

    /** The next len bytes, passed over. */
    method SkipRead(len: nat) returns (r: Result<seq<byte>>)
      requires Valid()
      modifies this`readPos, this`bad
      ensures Valid()
      ensures len <= |old(Unread())| ==> r == Ok(old(Unread())[..len], len) && Unread() == old(Unread())[len..]
      ensures len > |old(Unread())| ==> r == Err(Overflow) && Unread() == old(Unread())
      ensures bad == (old(bad) || r.Err?)
    {
      if readPos + len > |readMem| {
        bad := true;
        return Err(Overflow);
      }
      assert Unread()[..len] == readMem[readPos..readPos + len];
      assert Unread()[len..] == readMem[readPos + len..];
      r := Ok(readMem[readPos..readPos + len], len);
      readPos := readPos + len;
    }

    method GetChar() returns (r: Result<byte>)
      requires Valid()
      modifies this`readPos, this`bad
      ensures Valid()
      ensures old(Unread()) != [] ==> r == Ok(old(Unread())[0], 1) && Unread() == old(Unread())[1..]
      ensures old(Unread()) == [] ==> r == Err(Overflow) && Unread() == old(Unread())
      ensures bad == (old(bad) || r.Err?)
    {
      if readPos + 1 > |readMem| {
        bad := true;
        return Err(Overflow);
      }
      r := Ok(readMem[readPos], 1);
      assert readMem[readPos..][1..] == readMem[readPos + 1..];
      readPos := readPos + 1;
    }

    /** Copies bytes to the span, all of them or none. */
    method Append(bytes: seq<byte>) returns (ok: bool)
      requires Valid()
      modifies this`writeMem, this`writePos, this`bad
      ensures Valid() && |writeMem| == |old(writeMem)|
      ensures ok <==> |bytes| <= old(Room())
      ensures Written() == if ok then old(Written()) + bytes else old(Written())
      ensures writeMem[writePos..] == old(writeMem)[writePos..]
      ensures bad == (old(bad) || !ok)
    {
      if writePos + |bytes| > |writeMem| {
        bad := true;
        return false;
      }
      writeMem := writeMem[..writePos] + bytes + writeMem[writePos + |bytes|..];
      writePos := writePos + |bytes|;
      return true;
    }

    // ------------------------------------------------------------------ integers

    method WriteInt(ty: Ty, v: int) returns (ok: bool)
      requires Valid() && ty.Valid() && ty.Fits(v)
      modifies this`writeMem, this`writePos, this`bad
      ensures Valid() && |writeMem| == |old(writeMem)|
      ensures ok <==> |Encode(ty, v)| <= old(Room())
      ensures Written() == if ok then old(Written()) + Encode(ty, v) else old(Written())
      ensures bad == (old(bad) || !ok)
    {
      if 0 <= v < 0x80 {
        ok := Append([v as byte]);
        return;
      }
      FitsCount(ty, v);
      PowValues();
      var minus := if v < 0 then 0x20 else 0;
      var k := ByteCount(Abs(v));
      var bits := if ty == I8 then Abs(v) else Wrap(v, ty.width);
      ok := Append([(0x80 + minus + k - 1) as byte] + Le(bits, k));
    }

    method ReadInt(ty: Ty) returns (r: Result<int>)
      requires Valid() && ty.Valid()
      modifies this`readPos, this`bad
      ensures Valid()
      ensures r == Decode(ty, old(Unread()))
      ensures var u := old(Unread());
              Unread() == u[if r.Ok? then r.used else if u == [] then 0 else 1..]
      ensures bad == (old(bad) || r == Err(Overflow))
    {
      ghost var u := Unread();
      var c := GetChar();
      if c.Err? { return Err(c.error); }
      var tag := c.value as nat;
      if tag < 0x80 { return Ok(tag, 1); }
      var minus, k := (tag / 0x20) % 2 == 1, tag % 0x20 + 1;
      if !ty.signed && minus { return Err(Negative); }
      if k > ty.width { return Err(TooLarge); }
      var p := SkipRead(k);
      if p.Err? { return Err(p.error); }
      assert p.value == u[1..1 + k];
      var n := FromLe(p.value);
      if !ty.signed { return Ok(n, 1 + k); }
      var v := ToSigned(n, ty.width);
      if minus { v := ToSigned(Wrap(-v, ty.width), ty.width); }
      return Ok(v, 1 + k);
    }

    method SkipInt() returns (r: Result<()>)
      requires Valid()
      modifies this`readPos, this`bad
      ensures Valid()
      ensures r == Skip(old(Unread()))
      ensures r.Ok? ==> Unread() == old(Unread())[r.used..]
      ensures bad == (old(bad) || r.Err?)
    {
      var c := GetChar();
      if c.Err? { return Err(c.error); }
      if c.value < 0x80 { return Ok((), 1); }
      var k := c.value as nat % 0x20 + 1;
      var p := SkipRead(k);
      if p.Err? { return Err(p.error); }
      return Ok((), 1 + k);
    }

    // ------------------------------------------------------------------- strings

    method WriteStr(s: seq<byte>) returns (ok: bool)
      requires Valid() && |s| <= MAX_I32
      modifies this`writeMem, this`writePos, this`bad
      ensures Valid() && |writeMem| == |old(writeMem)|
      ensures ok <==> |EncodeStr(s)| <= old(Room())
      ensures ok ==> Written() == old(Written()) + EncodeStr(s)
      ensures bad == (old(bad) || !ok)
    {
      I32Range(|s|);
      ok := WriteInt(I32, |s|);
      if ok { ok := Append(s); }
    }

    method ReadStr() returns (r: Result<seq<byte>>)
      requires Valid()
      modifies this`readPos, this`bad
      ensures Valid()
      ensures r == DecodeStr(old(Unread()))
      ensures r.Ok? ==> Unread() == old(Unread())[r.used..]
    {
      ghost var u := Unread();
      var len := ReadInt(I32);
      if len.Err? { return Err(len.error); }
      if len.value < 0 { return Err(BadLength); }
      var p := SkipRead(len.value);
      if p.Err? { return Err(p.error); }
      assert p.value == u[len.used..len.used + len.value];
      return Ok(p.value, len.used + len.value);
    }

    // ------------------------------------------------------------------- records

    /** The mask and the length. */
    method WriteHeader(tag: nat, len: nat) returns (ok: bool)
      requires Valid() && tag < Pow(8) / 2 && len <= MAX_I32
      modifies this`writeMem, this`writePos, this`bad
      ensures Valid() && |writeMem| == |old(writeMem)|
      ensures ok <==> HeadSize(tag, len) <= old(Room())
      ensures ok ==> Written() == old(Written()) + Framed(tag, len, [])
    {
      I32Range(len);
      ok := WriteInt(I64, tag);
      if ok { ok := WriteInt(I32, len); }
    }

    method ReadHeader() returns (r: Result<(int, int)>)
      requires Valid()
      modifies this`readPos, this`bad
      ensures Valid()
      ensures r == Header(old(Unread()))
      ensures r.Ok? ==> Unread() == old(Unread())[r.used..]
    {
      ghost var u := Unread();
      var tag := ReadInt(I64);
      if tag.Err? { return Err(tag.error); }
      var len := ReadInt(I32);
      if len.Err? { return Err(len.error); }
      assert u[tag.used..][len.used..] == u[tag.used + len.used..];
      return Ok((tag.value, len.value), tag.used + len.used);
    }

    /** Passes over what is left of a record of length len when used bytes of it
        have been read. */
    method Finish(used: nat, len: int) returns (r: Result<()>)
      requires Valid()
      modifies this`readPos, this`bad
      ensures Valid()
      ensures r == Land(used, len, used + |old(Unread())|)
      ensures r.Ok? ==> r.used >= used && Unread() == old(Unread())[r.used - used..]
    {
      if len >= 0 && len > used {
        var p := SkipRead(len - used);
        if p.Err? { return Err(p.error); }
        return Ok((), len);
      }
      return Ok((), used);
    }

    method SkipRecord() returns (r: Result<()>)
      requires Valid()
      modifies this`readPos, this`bad
      ensures Valid()
      ensures r == Records.SkipRecord(old(Unread()))
      ensures r.Ok? ==> Unread() == old(Unread())[r.used..]
    {
      var h := ReadHeader();
      if h.Err? { return Err(h.error); }
      r := Finish(h.used, h.value.1);
    }

    method WriteInts(vs: seq<int>) returns (ok: bool)
      requires Valid() && Fits64(vs)
      modifies this`writeMem, this`writePos, this`bad
      ensures Valid() && |writeMem| == |old(writeMem)|
      ensures ok <==> |EncodeInts(vs)| <= old(Room())
      ensures ok ==> Written() == old(Written()) + EncodeInts(vs)
      decreases |vs|
    {
      if vs == [] {
        assert EncodeInts(vs) == [];
        return true;
      }
      UnfoldInts(vs, []);
      Regroup(Written(), Encode(I64, vs[0]), EncodeInts(vs[1..]));
      ok := WriteInt(I64, vs[0]);
      if ok { ok := WriteInts(vs[1..]); }
    }

    method WriteId(a: ActorId) returns (ok: bool)
      requires Valid() && Fits64(Ints(a))
      modifies this`writeMem, this`writePos, this`bad
      ensures Valid() && |writeMem| == |old(writeMem)|
      ensures ok <==> |EncodeId(a)| <= old(Room())
      ensures ok ==> Written() == old(Written()) + EncodeId(a)
    {
      IdWritten(a);
      Regroup(Written(), Framed(15, SizeOfId(a), []), EncodeInts(Ints(a)));
      ok := WriteHeader(15, SizeOfId(a));
      if ok { ok := WriteInts(Ints(a)); }
    }

    /** Reads fields i and up into vs, those whose bit is set. */
    method ReadInts(tag: int, i: nat, vs: seq<int>) returns (r: Result<seq<int>>)
      requires Valid()
      modifies this`readPos, this`bad
      ensures Valid()
      ensures r == DecodeInts(old(Unread()), tag, i, vs)
      ensures r.Ok? ==> Unread() == old(Unread())[r.used..]
      decreases |vs|
    {
      ghost var u := Unread();
      if vs == [] { return Ok([], 0); }
      var v := Ok(vs[0], 0);
      if Bit(tag, i) { v := ReadInt(I64); }
      if v.Err? { return Err(v.error); }
      assert Unread() == u[v.used..];
      r := ReadInts(tag, i + 1, vs[1..]);
      if r.Ok? {
        assert u[v.used..][r.used..] == u[v.used + r.used..];
        r := Ok([v.value] + r.value, v.used + r.used);
      }
    }

    method ReadIdFields(into: ActorId) returns (r: Result<(int, ActorId)>)
      requires Valid()
      modifies this`readPos, this`bad
      ensures Valid()
      ensures r == IdFields(old(Unread()), into)
      ensures r.Ok? ==> Unread() == old(Unread())[r.used..]
    {
      ghost var u := Unread();
      var h := ReadHeader();
      if h.Err? { return Err(h.error); }
      r := ReadIdInts(h.value.0, h.value.1, h.used, into, u);
    }

    /** The fields behind the header. */
    method ReadIdInts(tag: int, len: int, off: nat, into: ActorId, ghost u: seq<byte>) returns (r: Result<(int, ActorId)>)
      requires Valid() && Header(u) == Ok((tag, len), off) && Unread() == u[off..]
      modifies this`readPos, this`bad
      ensures Valid()
      ensures r == IdFields(u, into)
      ensures r.Ok? ==> Unread() == u[r.used..]
    {
      var f := ReadInts(tag, 0, Ints(into));
      IdFieldsRead(u, into, tag, len, off, f);
      if f.Err? { return Err(f.error); }
      assert u[off..][f.used..] == u[off + f.used..];
      return Ok((len, ActorId(f.value[0], f.value[1], f.value[2], f.value[3])), off + f.used);
    }

    method ReadId(into: ActorId) returns (r: Result<ActorId>)
      requires Valid()
      modifies this`readPos, this`bad
      ensures Valid()
      ensures r == DecodeId(old(Unread()), into)
      ensures r.Ok? ==> Unread() == old(Unread())[r.used..]
    {
      ghost var u := Unread();
      var f := ReadIdFields(into);
      if f.Err? { return Err(f.error); }
      var e := Finish(f.used, f.value.0);
      if e.Err? { return Err(e.error); }
      assert Unread() == u[e.used..];
      return Ok(f.value.1, e.used);
    }

    method WriteExit(x: ActorExit) returns (ok: bool)
      requires Valid() && ExitOk(x)
      modifies this`writeMem, this`writePos, this`bad
      ensures Valid() && |writeMem| == |old(writeMem)|
      ensures ok <==> |EncodeExit(x)| <= old(Room())
      ensures ok ==> Written() == old(Written()) + EncodeExit(x)
    {
      ExitWritten(x);
      Regroup(Written(), Framed(ExitTag(x), SizeOfExit(x), []), ExitBody(x));
      ok := WriteHeader(ExitTag(x), SizeOfExit(x));
      if ok { ok := WriteExitBody(x); }
    }

    method WriteExitBody(x: ActorExit) returns (ok: bool)
      requires Valid() && ExitOk(x)
      modifies this`writeMem, this`writePos, this`bad
      ensures Valid() && |writeMem| == |old(writeMem)|
      ensures ok <==> |ExitBody(x)| <= old(Room())
      ensures ok ==> Written() == old(Written()) + ExitBody(x)
    {
      Regroup(Written(), Encode(I8, x.typ), StrField(x.errmsg));
      ok := WriteInt(I8, x.typ);
      if ok && x.errmsg != [] { ok := WriteStr(x.errmsg); }
    }

    method ReadExitKnown(tag: int, into: ActorExit) returns (r: Result<ActorExit>)
      requires Valid()
      modifies this`readPos, this`bad
      ensures Valid()
      ensures r == ExitKnown(old(Unread()), tag, into)
      ensures r.Ok? ==> Unread() == old(Unread())[r.used..]
    {
      ghost var u := Unread();
      var typ := Ok(into.typ, 0);
      if Bit(tag, 0) { typ := ReadInt(I8); }
      if typ.Err? { return Err(typ.error); }
      assert Unread() == u[typ.used..];
      var msg := Ok(into.errmsg, 0);
      if Bit(tag, 1) { msg := ReadStr(); }
      if msg.Err? { return Err(msg.error); }
      assert Unread() == u[typ.used + msg.used..];
      return Ok(ActorExit(typ.value, msg.value), typ.used + msg.used);
    }

    method ReadExitFields(into: ActorExit) returns (r: Result<(int, ActorExit)>)
      requires Valid()
      modifies this`readPos, this`bad
      ensures Valid()
      ensures r == ExitFields(old(Unread()), into)
      ensures r.Ok? ==> Unread() == old(Unread())[r.used..]
    {
      ghost var u := Unread();
      var h := ReadHeader();
      if h.Err? { return Err(h.error); }
      var f := ReadExitKnown(h.value.0, into);
      if f.Err? { return Err(f.error); }
      assert Unread() == u[h.used + f.used..];
      return Ok((h.value.1, f.value), h.used + f.used);
    }

    method ReadExit(into: ActorExit) returns (r: Result<ActorExit>)
      requires Valid()
      modifies this`readPos, this`bad
      ensures Valid()
      ensures r == DecodeExit(old(Unread()), into)
      ensures r.Ok? ==> Unread() == old(Unread())[r.used..]
    {
      ghost var u := Unread();
      var f := ReadExitFields(into);
      if f.Err? { return Err(f.error); }
      var e := Finish(f.used, f.value.0);
      if e.Err? { return Err(e.error); }
      assert Unread() == u[e.used..];
      return Ok(f.value.1, e.used);
    }
  }
}
