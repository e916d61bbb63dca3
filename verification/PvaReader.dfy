/**
  The bounds-checked payload reader (internal/epics/pva/pva.go): the first overrun fails it, and a
  failed reader stays where it is and reads zeros. The class is the Go reader; the functions on
  Cursor say what each of its methods does.
 */
module PvaReader {
  import opened Bytes
  import opened NetIp
  import opened Pva

  datatype Cursor = Cursor(off: nat, failed: bool)

  datatype Channel = Channel(id: i32, name: seq<byte>)

  // ---------------------------------------------------------------- what each read does

  predicate Fits(b: seq<byte>, c: Cursor, n: int) {
    !c.failed && n >= 0 && c.off + n <= |b|
  }

  function Take(b: seq<byte>, c: Cursor, n: int): (r: (seq<byte>, Cursor))
    ensures r.1.failed || (|r.0| == n && r.1.off == c.off + n)
  {
    if Fits(b, c, n) then (b[c.off..c.off + n], Cursor(c.off + n, false)) else ([], c.(failed := true))
  }

  function ReadByte(b: seq<byte>, c: Cursor): (byte, Cursor) {
    var (s, c') := Take(b, c, 1);
    (if c'.failed then 0 else s[0], c')
  }

  function AfterSkip(b: seq<byte>, c: Cursor, n: int): Cursor {
    Take(b, c, n).1
  }

  function ReadU16(b: seq<byte>, big: bool, c: Cursor): (u16, Cursor) {
    var (s, c') := Take(b, c, 2);
    (if c'.failed then 0 else Order16(big, s, 0), c')
  }

  function ReadI16(b: seq<byte>, big: bool, c: Cursor): (int, Cursor) {
    var (v, c') := ReadU16(b, big, c);
    (if v < 0x8000 then v else v - 0x1_0000, c')
  }

  function ReadI32(b: seq<byte>, big: bool, c: Cursor): (i32, Cursor) {
    var (s, c') := Take(b, c, 4);
    (if c'.failed then 0 else Signed32(Order32(big, s, 0)), c')
  }

  /** One byte below 254 is the size itself, 254 announces an int32, 255 is the null size. */
  function ReadSize(b: seq<byte>, big: bool, c: Cursor): (r: (nat, Cursor))
    ensures r.1.failed ==> r.0 == 0
  {
    var (v, c') := ReadByte(b, c);
    if c'.failed || v == SIZE_NULL then (0, c')
    else if v < SIZE_LONG then (v, c')
    else
      var (n, c'') := ReadI32(b, big, c');
      if n < 0 then (0, c''.(failed := true)) else (n, c'')
  }

  function ReadStr(b: seq<byte>, big: bool, c: Cursor): (seq<byte>, Cursor) {
    var (n, c') := ReadSize(b, big, c);
    if c'.failed then ([], c') else Take(b, c', n)
  }

  function ReadAddr(b: seq<byte>, c: Cursor): (Addr, Cursor) {
    var (s, c') := Take(b, c, ADDR_LEN);
    (if c'.failed then Invalid else V6(s).Unmap(), c')
  }

  /** A single 0xFF is OK without text; otherwise a type and two strings. */
  function ReadStatus(b: seq<byte>, big: bool, c: Cursor): (bool, Cursor) {
    var (t, c') := ReadByte(b, c);
    if c'.failed then (false, c')
    else if t == STATUS_OK then (true, c')
    else (t == 0, ReadStr(b, big, ReadStr(b, big, c').1).1)
  }

  /** The decoding loops: at most n rounds, ending early on a failure. */
  function ReadStrs(b: seq<byte>, big: bool, c: Cursor, n: int): (seq<seq<byte>>, Cursor)
    decreases n
  {
    if n <= 0 || c.failed then ([], c)
    else
      var (s, c1) := ReadStr(b, big, c);
      Joined([s], ReadStrs(b, big, c1, n - 1))
  }

  function ReadIds(b: seq<byte>, big: bool, c: Cursor, n: int): (seq<i32>, Cursor)
    decreases n
  {
    if n <= 0 || c.failed then ([], c)
    else
      var (id, c1) := ReadI32(b, big, c);
      Joined([id], ReadIds(b, big, c1, n - 1))
  }

  /** A search also fails on a name above the limit, without keeping its channel. */
  function ReadChannels(b: seq<byte>, big: bool, c: Cursor, n: int, limited: bool): (seq<Channel>, Cursor)
    decreases n
  {
    if n <= 0 || c.failed then ([], c)
    else
      var (id, c1) := ReadI32(b, big, c);
      var (name, c2) := ReadStr(b, big, c1);
      if limited && |name| > MAX_CHANNEL_NAME then ([], c2.(failed := true))
      else Joined([Channel(id, name)], ReadChannels(b, big, c2, n - 1, limited))
  }

  /** The rounds a loop has done, before the rounds it still has to do. */
  function Joined<T>(done: seq<T>, todo: (seq<T>, Cursor)): (seq<T>, Cursor) {
    (done + todo.0, todo.1)
  }

  lemma JoinedNone<T>(todo: (seq<T>, Cursor))
    ensures Joined([], todo) == todo
  {
    assert [] + todo.0 == todo.0;
  }

  lemma JoinedNext<T>(done: seq<T>, x: T, todo: (seq<T>, Cursor))
    ensures Joined(done, Joined([x], todo)) == Joined(done + [x], todo)
  {
    assert done + ([x] + todo.0) == done + [x] + todo.0;
  }

  lemma JoinedLast<T>(done: seq<T>, c: Cursor)
    ensures Joined(done, ([], c)) == (done, c)
  {
    assert done + [] == done;
  }

  // ---------------------------------------------------------------- the reader object

  class Reader {
    const b: seq<byte>
    const big: bool
    var off: nat
    var failed: bool

    ghost function At(): Cursor
      reads this
    {
      Cursor(off, failed)
    }

    constructor (b: seq<byte>, big: bool)
      ensures this.b == b && this.big == big && At() == Cursor(0, false)
    {
      this.b, this.big, off, failed := b, big, 0, false;
    }

    method Need(n: int) returns (ok: bool)
      modifies this
      ensures ok == Fits(b, old(At()), n)
      ensures At() == if ok then old(At()) else old(At()).(failed := true)
    {
      if failed || n < 0 || off + n > |b| {
        failed := true;
        return false;
      }
      return true;
    }

    method Byte() returns (v: byte)
      modifies this
      ensures (v, At()) == ReadByte(b, old(At()))
    {
      var ok := Need(1);
      if !ok {
        return 0;
      }
      v := b[off];
      off := off + 1;
    }

    method Skip(n: int)
      modifies this
      ensures At() == AfterSkip(b, old(At()), n)
    {
      var ok := Need(n);
      if ok {
        off := off + n;
      }
    }

    method Bytes(n: int) returns (v: seq<byte>)
      modifies this
      ensures (v, At()) == Take(b, old(At()), n)
    {
      var ok := Need(n);
      if !ok {
        return [];
      }
      v := b[off..off + n];
      off := off + n;
    }

    method Uint16() returns (v: u16)
      modifies this
      ensures (v, At()) == ReadU16(b, big, old(At()))
    {
      var ok := Need(2);
      if !ok {
        return 0;
      }
      v := Order16(big, b, off);
      off := off + 2;
    }

    method Int16() returns (v: int)
      modifies this
      ensures (v, At()) == ReadI16(b, big, old(At()))
    {
      v := Uint16();
      if v >= 0x8000 {
        v := v - 0x1_0000;
      }
    }

    method Int32() returns (v: i32)
      modifies this
      ensures (v, At()) == ReadI32(b, big, old(At()))
    {
      var ok := Need(4);
      if !ok {
        return 0;
      }
      v := Signed32(Order32(big, b, off));
      assert b[off..off + 4][0..4] == b[off..off + 4];
      off := off + 4;
    }

    method Size() returns (n: nat)
      modifies this
      ensures (n, At()) == ReadSize(b, big, old(At()))
    {
      var v := Byte();
      if failed || v == SIZE_NULL {
        return 0;
      }
      if v < SIZE_LONG {
        return v;
      }
      var m := Int32();
      if m < 0 {
        failed := true;
        return 0;
      }
      return m;
    }

    method Str() returns (s: seq<byte>)
      modifies this
      ensures (s, At()) == ReadStr(b, big, old(At()))
    {
      var n := Size();
      if failed {
        return [];
      }
      s := Bytes(n);
    }

    method Addr() returns (a: Addr)
      modifies this
      ensures (a, At()) == ReadAddr(b, old(At()))
    {
      var s := Bytes(ADDR_LEN);
      if failed {
        return Invalid;
      }
      a := V6(s).Unmap();
    }

    method Status() returns (ok: bool)
      modifies this
      ensures (ok, At()) == ReadStatus(b, big, old(At()))
    {
      var t := Byte();
      if failed {
        return false;
      }
      if t == STATUS_OK {
        return true;
      }
      var _ := Str();
      var _ := Str();
      return t == 0;
    }

    method Strs(n: int) returns (ss: seq<seq<byte>>)
      modifies this
      ensures (ss, At()) == ReadStrs(b, big, old(At()), n)
    {
      ss := [];
      var i := 0;
      JoinedNone(ReadStrs(b, big, At(), n));
      while i < n && !failed
        invariant 0 <= i && (i <= n || i == 0)
        invariant ReadStrs(b, big, old(At()), n) == Joined(ss, ReadStrs(b, big, At(), n - i))
        decreases n - i
      {
        var s := Str();
        JoinedNext(ss, s, ReadStrs(b, big, At(), n - i - 1));
        ss := ss + [s];
        i := i + 1;
      }
      JoinedLast(ss, At());
    }

    method Ids(n: int) returns (ids: seq<i32>)
      modifies this
      ensures (ids, At()) == ReadIds(b, big, old(At()), n)
    {
      ids := [];
      var i := 0;
      JoinedNone(ReadIds(b, big, At(), n));
      while i < n && !failed
        invariant 0 <= i && (i <= n || i == 0)
        invariant ReadIds(b, big, old(At()), n) == Joined(ids, ReadIds(b, big, At(), n - i))
        decreases n - i
      {
        var id := Int32();
        JoinedNext(ids, id, ReadIds(b, big, At(), n - i - 1));
        ids := ids + [id];
        i := i + 1;
      }
      JoinedLast(ids, At());
    }

    method Channels(n: int, limited: bool) returns (cs: seq<Channel>)
      modifies this
      ensures (cs, At()) == ReadChannels(b, big, old(At()), n, limited)
    {
      cs := [];
      var i := 0;
      JoinedNone(ReadChannels(b, big, At(), n, limited));
      while i < n && !failed
        invariant 0 <= i && (i <= n || i == 0)
        invariant ReadChannels(b, big, old(At()), n, limited) == Joined(cs, ReadChannels(b, big, At(), n - i, limited))
        decreases n - i
      {
        var id := Int32();
        var name := Str();
        if limited && |name| > MAX_CHANNEL_NAME {
          failed := true;
          break;
        }
        JoinedNext(cs, Channel(id, name), ReadChannels(b, big, At(), n - i - 1, limited));
        cs := cs + [Channel(id, name)];
        i := i + 1;
      }
      JoinedLast(cs, At());
    }
  }

  // ---------------------------------------------------------------- sticky failure, bounded work

  /** c' is a later state of a reader that was at c: it moved inside the payload or failed for good. */
  predicate Follows(b: seq<byte>, c: Cursor, c': Cursor) {
    && c.off <= c'.off <= |b|
    && (c.failed ==> c' == c)
  }

  /** Every field read keeps the offset inside the payload; a failed reader stays put and reads zero. */
  lemma FieldsAreSticky(b: seq<byte>, big: bool, c: Cursor, n: int)
    requires c.off <= |b|
    ensures Follows(b, c, Take(b, c, n).1) && Follows(b, c, ReadByte(b, c).1) && Follows(b, c, AfterSkip(b, c, n))
    ensures Follows(b, c, ReadU16(b, big, c).1) && Follows(b, c, ReadI32(b, big, c).1) && Follows(b, c, ReadAddr(b, c).1)
    ensures c.failed ==>
              && Take(b, c, n).0 == [] && ReadByte(b, c).0 == 0 && ReadU16(b, big, c).0 == 0 && ReadI16(b, big, c).0 == 0
              && ReadI32(b, big, c).0 == 0 && ReadAddr(b, c).0 == Invalid
  {
  }

  /** The same for the reads of variable length. */
  lemma StringsAreSticky(b: seq<byte>, big: bool, c: Cursor)
    requires c.off <= |b|
    ensures Follows(b, c, ReadSize(b, big, c).1) && Follows(b, c, ReadStr(b, big, c).1) && Follows(b, c, ReadStatus(b, big, c).1)
    ensures c.failed ==> ReadSize(b, big, c).0 == 0 && ReadStr(b, big, c).0 == [] && !ReadStatus(b, big, c).0
  {
    FieldsAreSticky(b, big, c, 1);
    StrCosts(b, big, c);
    var c1 := ReadByte(b, c).1;
    StrCosts(b, big, c1);
    StrCosts(b, big, ReadStr(b, big, c1).1);
  }

  /** A string costs at least its size byte, unless the reader failed. */
  lemma StrCosts(b: seq<byte>, big: bool, c: Cursor)
    requires c.off <= |b|
    ensures var c' := ReadStr(b, big, c).1; Follows(b, c, c') && (c'.failed || c'.off >= c.off + 1)
  {
  }

  /** Whatever count the message declares, the loop over strings ends within the bytes there are. */
  lemma {:induction false} StrsBounded(b: seq<byte>, big: bool, c: Cursor, n: int)
    requires c.off <= |b|
    ensures var (ss, c') := ReadStrs(b, big, c, n);
            && Follows(b, c, c')
            && c.off + |ss| <= c'.off + (if c'.failed && !c.failed then 1 else 0)
            && |ss| <= |b| + 1
    decreases n
  {
    if n > 0 && !c.failed {
      StrCosts(b, big, c);
      StrsBounded(b, big, ReadStr(b, big, c).1, n - 1);
    }
  }

  lemma {:induction false} IdsBounded(b: seq<byte>, big: bool, c: Cursor, n: int)
    requires c.off <= |b|
    ensures var (ids, c') := ReadIds(b, big, c, n);
            && Follows(b, c, c')
            && c.off + 4 * |ids| <= c'.off + (if c'.failed && !c.failed then 4 else 0)
            && |ids| <= |b| / 4 + 1
    decreases n
  {
    if n > 0 && !c.failed {
      IdsBounded(b, big, ReadI32(b, big, c).1, n - 1);
    }
  }

  lemma {:induction false} ChannelsBounded(b: seq<byte>, big: bool, c: Cursor, n: int, limited: bool)
    requires c.off <= |b|
    ensures var (cs, c') := ReadChannels(b, big, c, n, limited);
            && Follows(b, c, c')
            && c.off + 5 * |cs| <= c'.off + (if c'.failed && !c.failed then 5 else 0)
            && |cs| <= |b| / 5 + 1
    decreases n
  {
    if n > 0 && !c.failed {
      var c1 := ReadI32(b, big, c).1;
      StrCosts(b, big, c1);
      var (name, c2) := ReadStr(b, big, c1);
      if !(limited && |name| > MAX_CHANNEL_NAME) {
        ChannelsBounded(b, big, c2, n - 1, limited);
      }
    }
  }
}
