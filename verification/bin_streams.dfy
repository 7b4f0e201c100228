/** The streams of bin_streams.h and the write and read overloads of bin_reflection.h
    that drive them, against the byte layout of BinCodec. */
module BinStreams {
  import opened Seqs
  import opened TrxData
  import opened BinCodec

  class OutputStream {
    var data: seq<u8>

    constructor ()
      ensures data == []
    {
      data := [];
    }

    method Put(bytes: seq<u8>)
      modifies this
      ensures data == old(data) + bytes
    {
      data := data + bytes;
    }
  }

  class InputStream {
    const data: seq<u8>
    var cur: nat

    constructor (data: seq<u8>)
      ensures this.data == data && cur == 0
    {
      this.data, cur := data, 0;
    }

    predicate Valid()
      reads this
    {
      cur <= |data|
    }

    function Left(): seq<u8>
      requires Valid()
      reads this
    {
      data[cur..]
    }

    /** read() asserts that the bytes are there. */
    method Get(n: nat) returns (bytes: seq<u8>)
      requires Valid() && n <= |Left()|
      modifies this
      ensures Valid() && bytes == old(Left()[..n]) && Left() == old(Left()[n..])
    {
      bytes := data[cur..cur+n];
      cur := cur + n;
    }

    /** The C string at curr(), and the skip past its NUL; unchecked in the original. */
    method GetString() returns (chars: seq<u8>)
      requires Valid() && Zero(Left(), 0) < |Left()|
      modifies this
      ensures Valid()
      ensures var z := old(Zero(Left(), 0)); chars == old(Left()[..z]) && Left() == old(Left()[z+1..])
    {
      var n := 0;
      while data[cur+n] != 0
        invariant n <= Zero(Left(), 0) < |Left()|
        decreases |Left()| - n
      {
        assert Left()[n] == data[cur+n];
        n := n + 1;
      }
      assert Left()[n] == 0;
      chars := data[cur..cur+n];
      cur := cur + (n + 1);
    }
  }

  /** write(): appends exactly the object's bytes. */
  method WriteObject(os: OutputStream, o: Order, ty: Ty, v: Val)
    requires Is(o, ty, v)
    modifies os
    ensures os.data == old(os.data) + Write(o, ty, v)
    decreases ty, 0
  {
    hide WriteElems, WriteEntries;
    match ty
    case TNum(w) => os.Put(v.bytes);
    case TBool => os.Put(Count32(if v.b then 1 else 0));
    case TStr => os.Put(v.chars + [0]);
    case TVec(e) =>
      os.Put(Count32(|v.elems|));
      WriteVector(os, o, e, v.elems);
    case TMap(k, e) =>
      os.Put(Count32(|v.entries|));
      WriteMap(os, o, k, e, v.entries);
    case TEnd =>
    case TEntry(f, r) =>
      WriteObject(os, o, f, v.first);
      WriteObject(os, o, r, v.rest);
  }

  lemma ElemsFrom(o: Order, e: Ty, elems: seq<Val>, i: nat)
    requires i < |elems| && forall j | 0 <= j < |elems| :: Is(o, e, elems[j])
    ensures WriteElems(o, e, elems[i..]) == Write(o, e, elems[i]) + WriteElems(o, e, elems[i+1..])
  {
    hide Is, Write;
    assert elems[i..][1..] == elems[i+1..];
  }

  method WriteVector(os: OutputStream, o: Order, e: Ty, elems: seq<Val>)
    requires forall j | 0 <= j < |elems| :: Is(o, e, elems[j])
    modifies os
    ensures os.data == old(os.data) + WriteElems(o, e, elems)
    decreases e, |elems| + 1
  {
    var i := 0;
    assert elems[0..] == elems;
    while i < |elems|
      invariant i <= |elems| && os.data + WriteElems(o, e, elems[i..]) == old(os.data) + WriteElems(o, e, elems)
    {
      ElemsFrom(o, e, elems, i);
      Assoc(os.data, Write(o, e, elems[i]), WriteElems(o, e, elems[i+1..]));
      WriteObject(os, o, e, elems[i]);
      i := i + 1;
    }
    assert os.data + [] == os.data;
  }

  lemma EntriesFrom(o: Order, k: Ty, e: Ty, entries: seq<(Val, Val)>, i: nat)
    requires i < |entries| && Typed(o, k, e, entries)
    ensures Typed(o, k, e, entries[i..]) && Typed(o, k, e, entries[i+1..])
    ensures Is(o, k, entries[i].0) && Is(o, e, entries[i].1)
    ensures WriteEntries(o, k, e, entries[i..]) ==
            Write(o, k, entries[i].0) + Write(o, e, entries[i].1) + WriteEntries(o, k, e, entries[i+1..])
  {
    hide Is, Write;
    assert entries[i..][1..] == entries[i+1..];
  }

  method WriteMap(os: OutputStream, o: Order, k: Ty, e: Ty, entries: seq<(Val, Val)>)
    requires Typed(o, k, e, entries)
    modifies os
    ensures os.data == old(os.data) + WriteEntries(o, k, e, entries)
    decreases TMap(k, e), 0, |entries|
  {
    hide Is, Write;
    var i := 0;
    assert entries[0..] == entries;
    while i < |entries|
      invariant i <= |entries| && Typed(o, k, e, entries[i..])
      invariant os.data + WriteEntries(o, k, e, entries[i..]) == old(os.data) + WriteEntries(o, k, e, entries)
    {
      EntriesFrom(o, k, e, entries, i);
      var (key, v) := entries[i];
      Assoc(os.data, Write(o, k, key) + Write(o, e, v), WriteEntries(o, k, e, entries[i+1..]));
      Assoc(os.data, Write(o, k, key), Write(o, e, v));
      WriteObject(os, o, k, key);
      WriteObject(os, o, e, v);
      i := i + 1;
    }
    assert os.data + [] == os.data;
  }

  /** read() into `t`: the object and the stream end where the layout says. */
  method ReadObject(s: InputStream, o: Order, ty: Ty, t: Val) returns (v: Val)
    requires Strict(o) && Is(o, ty, t) && s.Valid() && Read(o, ty, t, s.Left()).Some?
    modifies s
    ensures s.Valid() && old(Read(o, ty, t, s.Left())) == Some((v, s.Left()))
    decreases ty, 0
  {
    hide ReadElems, ReadEntries, Strict, Value32, Resize;
    match ty
    case TNum(w) =>
      var bytes := s.Get(w);
      v := Num(bytes);
    case TBool =>
      var uobj := s.Get(4);
      Value32Of(old(s.Left()));
      v := Bool(Value32(uobj) != 0);
    case TStr =>
      var chars := s.GetString();
      v := Str(chars);
    case TVec(e) =>
      var size := s.Get(4);
      Value32Of(old(s.Left()));
      var elems := ReadVector(s, o, e, Resize(o, e, t.elems, Value32(size)));
      v := Vec(elems);
    case TMap(k, e) =>
      var size := s.Get(4);
      Value32Of(old(s.Left()));
      var entries := ReadMapEntries(s, o, k, e, t.entries, Value32(size));
      v := Dict(entries);
    case TEnd => v := End;
    case TEntry(f, r) =>
      var first := ReadObject(s, o, f, t.first);
      var rest := ReadObject(s, o, r, t.rest);
      v := Entry(first, rest);
  }

  lemma Value32Of(s: seq<u8>)
    requires |s| >= 4
    ensures Value32(s[..4]) == Value32(s)
  {
  }

  lemma ElemsNext(o: Order, e: Ty, ts: seq<Val>, i: nat, s: seq<u8>)
    requires Strict(o) && (forall j | 0 <= j < |ts| :: Is(o, e, ts[j])) && i < |ts|
    requires ReadElems(o, e, ts[i..], s).Some?
    ensures Read(o, e, ts[i], s).Some? && ReadElems(o, e, ts[i+1..], Read(o, e, ts[i], s).value.1).Some?
    ensures var (v, more) := Read(o, e, ts[i], s).value;
      var (vs, rest) := ReadElems(o, e, ts[i+1..], more).value;
      ReadElems(o, e, ts[i..], s) == Some(([v] + vs, rest))
  {
    hide Is, Read, Strict;
    assert ts[i..][1..] == ts[i+1..];
  }

  /** The vector loop, over the elements resize() left. */
  method ReadVector(s: InputStream, o: Order, e: Ty, ts: seq<Val>) returns (vs: seq<Val>)
    requires Strict(o) && (forall j | 0 <= j < |ts| :: Is(o, e, ts[j])) && s.Valid()
      && ReadElems(o, e, ts, s.Left()).Some?
    modifies s
    ensures s.Valid() && old(ReadElems(o, e, ts, s.Left())) == Some((vs, s.Left()))
    decreases e, |ts| + 1
  {
    hide Read, Is, Strict, ReadElems;
    vs := [];
    var i := 0;
    ghost var all := ReadElems(o, e, ts, s.Left());
    assert ts[0..] == ts && [] + all.value.0 == all.value.0;
    while i < |ts|
      invariant i <= |ts| && s.Valid() && ReadElems(o, e, ts[i..], s.Left()).Some?
      invariant all ==
        Some((vs + ReadElems(o, e, ts[i..], s.Left()).value.0, ReadElems(o, e, ts[i..], s.Left()).value.1))
    {
      ElemsNext(o, e, ts, i, s.Left());
      ghost var later := ReadElems(o, e, ts[i+1..], Read(o, e, ts[i], s.Left()).value.1).value.0;
      var v := ReadObject(s, o, e, ts[i]);
      Assoc(vs, [v], later);
      vs := vs + [v];
      i := i + 1;
    }
    ElemsNone(o, e, ts[i..], s.Left(), vs);
  }

  lemma ElemsNone(o: Order, e: Ty, ts: seq<Val>, s: seq<u8>, vs: seq<Val>)
    requires Strict(o) && ts == []
    ensures ReadElems(o, e, ts, s) == Some(([], s)) && vs + [] == vs
  {
  }

  lemma EntriesNext(o: Order, k: Ty, e: Ty, entries: seq<(Val, Val)>, n: nat, s: seq<u8>)
    requires Strict(o) && Typed(o, k, e, entries) && Sorted(o, k, entries) && n > 0
      && ReadEntries(o, k, e, entries, n, s).Some?
    ensures Read(o, k, Default(o, k), s).Some?
    ensures var (key, more) := Read(o, k, Default(o, k), s).value;
      && Is(o, k, key) && Is(o, e, Existing(o, k, e, entries, key))
      && Read(o, e, Existing(o, k, e, entries, key), more).Some?
      && var (v, rest) := Read(o, e, Existing(o, k, e, entries, key), more).value;
      && Typed(o, k, e, Store(o, k, entries, key, v)) && Sorted(o, k, Store(o, k, entries, key, v))
      && ReadEntries(o, k, e, entries, n, s) == ReadEntries(o, k, e, Store(o, k, entries, key, v), n - 1, rest)
  {
    var (key, more) := Read(o, k, Default(o, k), s).value;
    hide Is, Read, Strict, Store, Existing, Default, Typed, Sorted;
    var (v, rest) := Read(o, e, Existing(o, k, e, entries, key), more).value;
    StoreTyped(o, k, e, entries, key, v);
  }

  /** The map loop: read a key, then into m[key], which makes the entry if it is new. */
  method ReadMapEntries(s: InputStream, o: Order, k: Ty, e: Ty, t: seq<(Val, Val)>, size: nat)
    returns (m: seq<(Val, Val)>)
    requires Strict(o) && Typed(o, k, e, t) && Sorted(o, k, t) && s.Valid()
      && ReadEntries(o, k, e, t, size, s.Left()).Some?
    modifies s
    ensures s.Valid() && old(ReadEntries(o, k, e, t, size, s.Left())) == Some((m, s.Left()))
    decreases TMap(k, e), 0, size
  {
    hide Read, Is, Strict, ReadEntries, Typed, Sorted, Store, Existing, Default;
    m := t;
    var i := 0;
    while i < size
      invariant i <= size && s.Valid() && Typed(o, k, e, m) && Sorted(o, k, m)
      invariant ReadEntries(o, k, e, m, size - i, s.Left()) == old(ReadEntries(o, k, e, t, size, s.Left()))
    {
      EntriesNext(o, k, e, m, size - i, s.Left());
      var key := ReadObject(s, o, k, Default(o, k));
      var v := ReadObject(s, o, e, Existing(o, k, e, m, key));
      m := Store(o, k, m, key, v);
      i := i + 1;
    }
    EntriesNone(o, k, e, m, s.Left());
  }

  lemma EntriesNone(o: Order, k: Ty, e: Ty, m: seq<(Val, Val)>, s: seq<u8>)
    requires Strict(o) && Typed(o, k, e, m) && Sorted(o, k, m)
    ensures ReadEntries(o, k, e, m, 0, s) == Some((m, s))
  {
  }

  method Wrap(o: Order, ty: Ty, v: Val) returns (data: seq<u8>)
    requires Is(o, ty, v)
    ensures data == Write(o, ty, v)
  {
    var os := new OutputStream();
    WriteObject(os, o, ty, v);
    assert [] + Write(o, ty, v) == Write(o, ty, v);
    data := os.data;
  }

  /** unwrap takes the address of the first byte, so there must be one. */
  method Unwrap(o: Order, ty: Ty, data: seq<u8>, t: Val) returns (v: Val)
    requires Strict(o) && Is(o, ty, t) && data != [] && Read(o, ty, t, data).Some?
    ensures v == Read(o, ty, t, data).value.0
  {
    var s := new InputStream(data);
    assert data[0..] == data;
    v := ReadObject(s, o, ty, t);
  }

  /** The round trip as its callers see it, for every type written as at least a byte. */
  method WrapUnwrap(o: Order, ty: Ty, v: Val, t: Val) returns (u: Val)
    requires Strict(o) && Is(o, ty, v) && Is(o, ty, t) && Clean(o, ty, t) && Portable(o, ty, v) && HasBytes(ty)
    ensures u == v
  {
    hide Strict, Is, Clean, Portable, Read, Write, HasBytes;
    var data := Wrap(o, ty, v);
    WrittenIff(o, ty, v);
    ReadBack(o, ty, v, t, []);
    assert data + [] == data;
    u := Unwrap(o, ty, data, t);
  }
}
