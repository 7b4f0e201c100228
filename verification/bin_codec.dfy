/** The generic binary serializer of exts/reflection: what write appends and what read
    makes of it, for every nesting of the types it handles. */
module BinCodec {
  import opened Seqs
  import opened TrxData

  /** Arithmetic types by width; a reflected struct is its entries one after the other. */
  datatype Ty =
    | TNum(width: nat)
    | TBool
    | TStr
    | TVec(elem: Ty)
    | TMap(key: Ty, val: Ty)
    | TEnd
    | TEntry(first: Ty, rest: Ty)

  /** Objects; a map's entries in iteration order. */
  datatype Val =
    | Num(bytes: seq<u8>)
    | Bool(b: bool)
    | Str(chars: seq<u8>)
    | Vec(elems: seq<Val>)
    | Dict(entries: seq<(Val, Val)>)
    | End
    | Entry(first: Val, rest: Val)

  /** The comparator of maps with keys of a type. */
  type Order = (Ty, Val, Val) -> bool

  ghost predicate Strict(o: Order) {
    && (forall t, a, b, c | o(t, a, b) && o(t, b, c) :: o(t, a, c))
    && (forall t, a :: !o(t, a, a))
  }

  predicate Sorted(o: Order, k: Ty, entries: seq<(Val, Val)>) {
    forall i, j | 0 <= i < j < |entries| :: o(k, entries[i].0, entries[j].0)
  }

  /** `v` is an object of type `ty`. */
  predicate Is(o: Order, ty: Ty, v: Val)
    decreases ty
  {
    match ty
    case TNum(w) => v.Num? && |v.bytes| == w
    case TBool => v.Bool?
    case TStr => v.Str?
    case TVec(e) => v.Vec? && forall i | 0 <= i < |v.elems| :: Is(o, e, v.elems[i])
    case TMap(k, e) =>
      && v.Dict? && Sorted(o, k, v.entries)
      && forall i | 0 <= i < |v.entries| :: Is(o, k, v.entries[i].0) && Is(o, e, v.entries[i].1)
    case TEnd => v.End?
    case TEntry(f, r) => v.Entry? && Is(o, f, v.first) && Is(o, r, v.rest)
  }

  /** Entries of a map's types, in any order. */
  predicate Typed(o: Order, k: Ty, e: Ty, entries: seq<(Val, Val)>) {
    forall i | 0 <= i < |entries| :: Is(o, k, entries[i].0) && Is(o, e, entries[i].1)
  }

  /** No map anywhere in `v` has an entry. */
  predicate Clean(o: Order, ty: Ty, v: Val)
    requires Is(o, ty, v)
    decreases ty
  {
    match ty
    case TVec(e) => forall i | 0 <= i < |v.elems| :: Clean(o, e, v.elems[i])
    case TMap(k, e) => v.entries == []
    case TEntry(f, r) => Clean(o, f, v.first) && Clean(o, r, v.rest)
    case _ => true
  }

  const COUNT_MAX: nat := 0x1_0000_0000

  /** Counts that fit the four bytes written for them. */
  predicate Fits(o: Order, ty: Ty, v: Val)
    requires Is(o, ty, v)
    decreases ty
  {
    match ty
    case TVec(e) => |v.elems| < COUNT_MAX && forall i | 0 <= i < |v.elems| :: Fits(o, e, v.elems[i])
    case TMap(k, e) =>
      && |v.entries| < COUNT_MAX
      && forall i | 0 <= i < |v.entries| :: Fits(o, k, v.entries[i].0) && Fits(o, e, v.entries[i].1)
    case TEntry(f, r) => Fits(o, f, v.first) && Fits(o, r, v.rest)
    case _ => true
  }

  /** No string in `v` holds a NUL. */
  predicate NulFree(o: Order, ty: Ty, v: Val)
    requires Is(o, ty, v)
    decreases ty
  {
    match ty
    case TStr => 0 !in v.chars
    case TVec(e) => forall i | 0 <= i < |v.elems| :: NulFree(o, e, v.elems[i])
    case TMap(k, e) => forall i | 0 <= i < |v.entries| :: NulFree(o, k, v.entries[i].0) && NulFree(o, e, v.entries[i].1)
    case TEntry(f, r) => NulFree(o, f, v.first) && NulFree(o, r, v.rest)
    case _ => true
  }

  predicate Portable(o: Order, ty: Ty, v: Val)
    requires Is(o, ty, v)
  {
    Fits(o, ty, v) && NulFree(o, ty, v)
  }

  function Default(o: Order, ty: Ty): (v: Val)
    ensures Is(o, ty, v) && Clean(o, ty, v)
  {
    match ty
    case TNum(w) => Num(seq(w, i => 0))
    case TBool => Bool(false)
    case TStr => Str([])
    case TVec(e) => Vec([])
    case TMap(k, e) => Dict([])
    case TEnd => End
    case TEntry(f, r) => Entry(Default(o, f), Default(o, r))
  }

  function Count32(n: nat): seq<u8> { Le32(n % COUNT_MAX) }

  // ----- write -----

  function Write(o: Order, ty: Ty, v: Val): seq<u8>
    requires Is(o, ty, v)
    decreases ty, 0
  {
    match ty
    case TNum(w) => v.bytes
    case TBool => Count32(if v.b then 1 else 0)
    case TStr => v.chars + [0]
    case TVec(e) => Count32(|v.elems|) + WriteElems(o, e, v.elems)
    case TMap(k, e) => Count32(|v.entries|) + WriteEntries(o, k, e, v.entries)
    case TEnd => []
    case TEntry(f, r) => Write(o, f, v.first) + Write(o, r, v.rest)
  }

  /** What the bytes of an object look like to another reader: a boolean is four bytes, a
      string ends in a NUL, and a count, cut to 32 bits, stands first with its low byte
      in front. */
  lemma WrittenBytes(o: Order, ty: Ty, v: Val)
    requires Is(o, ty, v)
    ensures var w := Write(o, ty, v);
      && (ty.TBool? ==> w == [if v.b then 1 else 0, 0, 0, 0])
      && (ty.TStr? ==> |w| == |v.chars| + 1 && w[..|v.chars|] == v.chars && w[|v.chars|] == 0)
      && (ty.TVec? ==> |w| >= 4 && Value32(w) == |v.elems| % COUNT_MAX)
      && (ty.TMap? ==> |w| >= 4 && Value32(w) == |v.entries| % COUNT_MAX)
  {
    match ty
    case TVec(e) => Count32Back(|v.elems|, WriteElems(o, e, v.elems));
    case TMap(k, e) => Count32Back(|v.entries|, WriteEntries(o, k, e, v.entries));
    case _ =>
  }

  function WriteElems(o: Order, e: Ty, elems: seq<Val>): seq<u8>
    requires forall i | 0 <= i < |elems| :: Is(o, e, elems[i])
    decreases e, |elems| + 1
  {
    if elems == [] then [] else Write(o, e, elems[0]) + WriteElems(o, e, elems[1..])
  }

  function WriteEntries(o: Order, k: Ty, e: Ty, entries: seq<(Val, Val)>): seq<u8>
    requires Typed(o, k, e, entries)
    decreases TMap(k, e), 0, |entries|
  {
    if entries == [] then []
    else Write(o, k, entries[0].0) + Write(o, e, entries[0].1) + WriteEntries(o, k, e, entries[1..])
  }

  // ----- read -----

  /** std::vector::resize. */
  function Resize(o: Order, e: Ty, elems: seq<Val>, n: nat): (r: seq<Val>)
    requires forall i | 0 <= i < |elems| :: Is(o, e, elems[i])
    ensures |r| == n && (forall i | 0 <= i < n :: Is(o, e, r[i]))
    ensures forall i | 0 <= i < n :: r[i] == if i < |elems| then elems[i] else Default(o, e)
  {
    if n <= |elems| then elems[..n] else elems + seq(n - |elems|, i => Default(o, e))
  }

  function Zero(s: seq<u8>, i: nat): (p: nat)
    requires i <= |s|
    ensures i <= p <= |s| && (p < |s| ==> s[p] == 0) && forall j | i <= j < p :: s[j] != 0
    decreases |s| - i
  {
    if i == |s| || s[i] == 0 then i else Zero(s, i + 1)
  }

  /** Where a key goes: the first entry not before it. */
  function Slot(o: Order, k: Ty, entries: seq<(Val, Val)>, key: Val): (i: nat)
    ensures i <= |entries|
    ensures forall j | 0 <= j < i :: o(k, entries[j].0, key)
    ensures i < |entries| ==> !o(k, entries[i].0, key)
  {
    if entries == [] || !o(k, entries[0].0, key) then 0 else 1 + Slot(o, k, entries[1..], key)
  }

  /** The entry of this key is there already. */
  predicate Present(o: Order, k: Ty, entries: seq<(Val, Val)>, key: Val) {
    var i := Slot(o, k, entries, key);
    i < |entries| && !o(k, key, entries[i].0)
  }

  /** The object m[key] is read into. */
  function Existing(o: Order, k: Ty, e: Ty, entries: seq<(Val, Val)>, key: Val): Val {
    if Present(o, k, entries, key) then entries[Slot(o, k, entries, key)].1 else Default(o, e)
  }

  function Store(o: Order, k: Ty, entries: seq<(Val, Val)>, key: Val, v: Val): seq<(Val, Val)> {
    var i := Slot(o, k, entries, key);
    if Present(o, k, entries, key) then entries[i := (entries[i].0, v)]
    else entries[..i] + [(key, v)] + entries[i..]
  }

  /** An object read, and the bytes behind it; None where the stream's bound assertion
      fails or a string runs past the end. `t` is the object read into. */
  type Got = Option<(Val, seq<u8>)>

  lemma StoreOrder(o: Order, k: Ty, entries: seq<(Val, Val)>, key: Val, v: Val, a: nat, b: nat)
    requires Strict(o) && Sorted(o, k, entries) && a < b < |Store(o, k, entries, key, v)|
    ensures o(k, Store(o, k, entries, key, v)[a].0, Store(o, k, entries, key, v)[b].0)
  {
    var i := Slot(o, k, entries, key);
    if !Present(o, k, entries, key) {
      if a == i { assert o(k, key, entries[i].0); }
      if a == i && b > i + 1 { assert o(k, entries[i].0, entries[b-1].0); }
    }
  }

  lemma StoreSorted(o: Order, k: Ty, entries: seq<(Val, Val)>, key: Val, v: Val)
    requires Strict(o) && Sorted(o, k, entries)
    ensures Sorted(o, k, Store(o, k, entries, key, v))
  {
    hide Strict, Store;
    var r := Store(o, k, entries, key, v);
    forall a: nat, b: nat | a < b < |r| ensures o(k, r[a].0, r[b].0) { StoreOrder(o, k, entries, key, v, a, b); }
  }

  lemma StoreTyped(o: Order, k: Ty, e: Ty, entries: seq<(Val, Val)>, key: Val, v: Val)
    requires Strict(o) && Typed(o, k, e, entries) && Sorted(o, k, entries) && Is(o, k, key) && Is(o, e, v)
    ensures Typed(o, k, e, Store(o, k, entries, key, v)) && Sorted(o, k, Store(o, k, entries, key, v))
  {
    hide Strict, Is, Slot, Sorted;
    StoreSorted(o, k, entries, key, v);
  }

  function Read(o: Order, ty: Ty, t: Val, s: seq<u8>): (g: Got)
    requires Strict(o) && Is(o, ty, t)
    ensures g.Some? ==> Is(o, ty, g.value.0)
    decreases ty, 0
  {
    match ty
    case TNum(w) => if |s| < w then None else Some((Num(s[..w]), s[w..]))
    case TBool => if |s| < 4 then None else Some((Bool(Value32(s) != 0), s[4..]))
    case TStr =>
      var z := Zero(s, 0);
      if z == |s| then None else Some((Str(s[..z]), s[z+1..]))
    case TVec(e) =>
      if |s| < 4 then None
      else
        (match ReadElems(o, e, Resize(o, e, t.elems, Value32(s)), s[4..])
         case None => None
         case Some((elems, rest)) => Some((Vec(elems), rest)))
    case TMap(k, e) =>
      if |s| < 4 then None
      else
        (match ReadEntries(o, k, e, t.entries, Value32(s), s[4..])
         case None => None
         case Some((entries, rest)) => Some((Dict(entries), rest)))
    case TEnd => Some((End, s))
    case TEntry(f, r) =>
      (match Read(o, f, t.first, s)
       case None => None
       case Some((first, more)) =>
         match Read(o, r, t.rest, more)
         case None => None
         case Some((rest, left)) => Some((Entry(first, rest), left)))
  }

  function ReadElems(o: Order, e: Ty, elems: seq<Val>, s: seq<u8>): (g: Option<(seq<Val>, seq<u8>)>)
    requires Strict(o) && forall i | 0 <= i < |elems| :: Is(o, e, elems[i])
    ensures g.Some? ==> |g.value.0| == |elems| && forall i | 0 <= i < |elems| :: Is(o, e, g.value.0[i])
    decreases e, |elems| + 1
  {
    if elems == [] then Some(([], s))
    else
      match Read(o, e, elems[0], s)
      case None => None
      case Some((v, more)) =>
        match ReadElems(o, e, elems[1..], more)
        case None => None
        case Some((vs, rest)) => Some(([v] + vs, rest))
  }

  function ReadEntries(o: Order, k: Ty, e: Ty, entries: seq<(Val, Val)>, n: nat, s: seq<u8>)
    : (g: Option<(seq<(Val, Val)>, seq<u8>)>)
    requires Strict(o) && Typed(o, k, e, entries) && Sorted(o, k, entries)
    ensures g.Some? ==> Typed(o, k, e, g.value.0) && Sorted(o, k, g.value.0)
    decreases TMap(k, e), 0, n
  {
    if n == 0 then Some((entries, s))
    else
      match Read(o, k, Default(o, k), s)
      case None => None
      case Some((key, more)) =>
        match Read(o, e, Existing(o, k, e, entries, key), more)
        case None => None
        case Some((v, rest)) =>
          StoreTyped(o, k, e, entries, key, v);
          ReadEntries(o, k, e, Store(o, k, entries, key, v), n - 1, rest)
  }

  // ----- round trip -----

  lemma Count32Back(n: nat, rest: seq<u8>)
    ensures |Count32(n)| == 4 && Value32(Count32(n) + rest) == n % COUNT_MAX && (Count32(n) + rest)[4..] == rest
  {
    Le32Back(n % COUNT_MAX, rest);
  }

  lemma StringBack(chars: seq<u8>, rest: seq<u8>)
    requires 0 !in chars
    ensures var s := chars + [0] + rest;
      Zero(s, 0) == |chars| < |s| && s[..|chars|] == chars && s[|chars|+1..] == rest
  {
    var s := chars + [0] + rest;
    assert s[|chars|] == 0;
    assert forall j | 0 <= j < |chars| :: s[j] == chars[j] && chars[j] in chars;
  }

  lemma NewKey(o: Order, k: Ty, e: Ty, done: seq<(Val, Val)>, key: Val, v: Val)
    requires Strict(o) && forall j | 0 <= j < |done| :: o(k, done[j].0, key)
    ensures Existing(o, k, e, done, key) == Default(o, e)
    ensures Store(o, k, done, key, v) == done + [(key, v)]
  {
    assert Slot(o, k, done, key) == |done|;
  }

  lemma ElemsNothing(o: Order, e: Ty, ts: seq<Val>, rest: seq<u8>)
    requires Strict(o) && ts == []
    ensures ReadElems(o, e, ts, [] + rest) == Some(([], rest))
  {
    assert [] + rest == rest;
  }

  lemma ReadElemsCons(o: Order, e: Ty, ts: seq<Val>, s: seq<u8>, v: Val, more: seq<u8>, vs: seq<Val>, rest: seq<u8>)
    requires Strict(o) && ts != [] && forall i | 0 <= i < |ts| :: Is(o, e, ts[i])
    requires Read(o, e, ts[0], s) == Some((v, more)) && ReadElems(o, e, ts[1..], more) == Some((vs, rest))
    ensures ReadElems(o, e, ts, s) == Some(([v] + vs, rest))
  {
    hide Read, Strict, Is;
  }

  /** One map entry: a key past all those read before it is appended with its value. */
  lemma ReadEntriesCons(o: Order, k: Ty, e: Ty, done: seq<(Val, Val)>, key: Val, v: Val, n: nat, s: seq<u8>,
      s1: seq<u8>, s2: seq<u8>)
    requires Strict(o) && Typed(o, k, e, done) && Sorted(o, k, done) && n > 0
    requires forall j | 0 <= j < |done| :: o(k, done[j].0, key)
    requires Read(o, k, Default(o, k), s) == Some((key, s1)) && Read(o, e, Default(o, e), s1) == Some((v, s2))
    ensures Typed(o, k, e, done + [(key, v)]) && Sorted(o, k, done + [(key, v)])
    ensures ReadEntries(o, k, e, done, n, s) == ReadEntries(o, k, e, done + [(key, v)], n - 1, s2)
  {
    hide Read, Strict, Is, Store, Existing, Default, Typed, Sorted;
    NewKey(o, k, e, done, key, v);
    StoreTyped(o, k, e, done, key, v);
  }

  lemma ReadVec(o: Order, e: Ty, t: Val, n: nat, body: seq<u8>, elems: seq<Val>, rest: seq<u8>)
    requires Strict(o) && Is(o, TVec(e), t) && n < COUNT_MAX
    requires ReadElems(o, e, Resize(o, e, t.elems, n), body) == Some((elems, rest))
    ensures Read(o, TVec(e), t, Count32(n) + body) == Some((Vec(elems), rest))
  {
    Count32Back(n, body);
    hide Value32, Count32, ReadElems, Resize, Strict;
  }

  lemma ReadMap(o: Order, k: Ty, e: Ty, t: Val, n: nat, body: seq<u8>, entries: seq<(Val, Val)>, rest: seq<u8>)
    requires Strict(o) && Is(o, TMap(k, e), t) && n < COUNT_MAX && Typed(o, k, e, t.entries)
    requires ReadEntries(o, k, e, t.entries, n, body) == Some((entries, rest))
    ensures Read(o, TMap(k, e), t, Count32(n) + body) == Some((Dict(entries), rest))
  {
    Count32Back(n, body);
    hide Value32, Count32, ReadEntries, Strict;
  }

  lemma ReadEntry(o: Order, f: Ty, r: Ty, t: Val, s: seq<u8>, first: Val, more: seq<u8>, rest: Val, left: seq<u8>)
    requires Strict(o) && Is(o, TEntry(f, r), t)
    requires Read(o, f, t.first, s) == Some((first, more)) && Read(o, r, t.rest, more) == Some((rest, left))
    ensures Read(o, TEntry(f, r), t, s) == Some((Entry(first, rest), left))
  {
  }

  lemma ReadFlat(o: Order, ty: Ty, v: Val, t: Val, rest: seq<u8>)
    requires Strict(o) && Is(o, ty, v) && Is(o, ty, t) && Portable(o, ty, v)
    requires ty.TNum? || ty.TBool? || ty.TStr? || ty.TEnd?
    ensures Read(o, ty, t, Write(o, ty, v) + rest) == Some((v, rest))
  {
    match ty
    case TNum(w) => assert (v.bytes + rest)[..w] == v.bytes && (v.bytes + rest)[w..] == rest;
    case TBool => Count32Back(if v.b then 1 else 0, rest);
    case TStr => StringBack(v.chars, rest);
    case TEnd => assert [] + rest == rest;
  }

  /** unwrap(wrap(x)) gives x back, whatever it is read into as long as that holds no map
      entries, and consumes exactly what was written. */
  lemma {:induction false} ReadBack(o: Order, ty: Ty, v: Val, t: Val, rest: seq<u8>)
    requires Strict(o) && Is(o, ty, v) && Is(o, ty, t) && Clean(o, ty, t) && Portable(o, ty, v)
    ensures Read(o, ty, t, Write(o, ty, v) + rest) == Some((v, rest))
    decreases ty, 0
  {
    hide Read, ReadElems, ReadEntries, WriteElems, WriteEntries, Count32, Strict;
    match ty
    case TVec(e) =>
      Assoc(Count32(|v.elems|), WriteElems(o, e, v.elems), rest);
      ReadBackElems(o, e, v.elems, Resize(o, e, t.elems, |v.elems|), rest);
      ReadVec(o, e, t, |v.elems|, WriteElems(o, e, v.elems) + rest, v.elems, rest);
    case TMap(k, e) =>
      Assoc(Count32(|v.entries|), WriteEntries(o, k, e, v.entries), rest);
      assert [] + v.entries == v.entries;
      ReadBackEntries(o, k, e, [], v.entries, rest);
      ReadMap(o, k, e, t, |v.entries|, WriteEntries(o, k, e, v.entries) + rest, v.entries, rest);
    case TEntry(f, r) =>
      Assoc(Write(o, f, v.first), Write(o, r, v.rest), rest);
      ReadBack(o, f, v.first, t.first, Write(o, r, v.rest) + rest);
      ReadBack(o, r, v.rest, t.rest, rest);
      ReadEntry(o, f, r, t, Write(o, ty, v) + rest, v.first, Write(o, r, v.rest) + rest, v.rest, rest);
    case _ => ReadFlat(o, ty, v, t, rest);
  }

  lemma {:induction false} ReadBackElems(o: Order, e: Ty, vs: seq<Val>, ts: seq<Val>, rest: seq<u8>)
    requires Strict(o) && |ts| == |vs|
    requires forall i | 0 <= i < |vs| ::
      Is(o, e, vs[i]) && Is(o, e, ts[i]) && Clean(o, e, ts[i]) && Portable(o, e, vs[i])
    ensures ReadElems(o, e, ts, WriteElems(o, e, vs) + rest) == Some((vs, rest))
    decreases e, |vs| + 1
  {
    hide Read, Write, Is, Clean, Portable, Strict, ReadElems;
    if vs == [] {
      ElemsNothing(o, e, ts, rest);
    } else {
      var more := WriteElems(o, e, vs[1..]) + rest;
      Assoc(Write(o, e, vs[0]), WriteElems(o, e, vs[1..]), rest);
      ReadBack(o, e, vs[0], ts[0], more);
      ReadBackElems(o, e, vs[1..], ts[1..], rest);
      ReadElemsCons(o, e, ts, Write(o, e, vs[0]) + more, vs[0], more, vs[1..], rest);
      assert [vs[0]] + vs[1..] == vs;
    }
  }

  // ----- cut streams -----

  /** More bytes behind what can be read change nothing but what is left. */
  lemma {:induction false} ReadExtend(o: Order, ty: Ty, t: Val, s: seq<u8>, more: seq<u8>)
    requires Strict(o) && Is(o, ty, t) && Read(o, ty, t, s).Some?
    ensures Read(o, ty, t, s + more) == Some((Read(o, ty, t, s).value.0, Read(o, ty, t, s).value.1 + more))
    decreases ty, 0
  {
    hide ReadElems, ReadEntries, Strict, Resize, Value32;
    match ty
    case TNum(w) => CutExtend(s, more, w);
    case TBool => CountExtend(s, more);
    case TStr => ZeroExtend(s, more);
    case TVec(e) =>
      CountExtend(s, more);
      ReadElemsExtend(o, e, Resize(o, e, t.elems, Value32(s)), s[4..], more);
    case TMap(k, e) =>
      CountExtend(s, more);
      ReadEntriesExtend(o, k, e, t.entries, Value32(s), s[4..], more);
    case TEnd =>
    case TEntry(f, r) =>
      ReadExtend(o, f, t.first, s, more);
      ReadExtend(o, r, t.rest, Read(o, f, t.first, s).value.1, more);
  }

  lemma CutExtend(s: seq<u8>, more: seq<u8>, n: nat)
    requires n <= |s|
    ensures (s + more)[..n] == s[..n] && (s + more)[n..] == s[n..] + more
  {
  }

  lemma CountExtend(s: seq<u8>, more: seq<u8>)
    requires |s| >= 4
    ensures Value32(s + more) == Value32(s) && (s + more)[4..] == s[4..] + more
  {
  }

  lemma ZeroExtend(s: seq<u8>, more: seq<u8>)
    requires Zero(s, 0) < |s|
    ensures var z := Zero(s, 0);
      Zero(s + more, 0) == z && (s + more)[..z] == s[..z] && (s + more)[z+1..] == s[z+1..] + more
  {
    var z := Zero(s, 0);
    assert (s + more)[z] == 0 && forall j | 0 <= j < z :: (s + more)[j] == s[j];
  }

  lemma {:induction false} ReadElemsExtend(o: Order, e: Ty, ts: seq<Val>, s: seq<u8>, more: seq<u8>)
    requires Strict(o) && (forall i | 0 <= i < |ts| :: Is(o, e, ts[i])) && ReadElems(o, e, ts, s).Some?
    ensures ReadElems(o, e, ts, s + more) ==
      Some((ReadElems(o, e, ts, s).value.0, ReadElems(o, e, ts, s).value.1 + more))
    decreases e, |ts| + 1
  {
    hide Read, Strict, Is;
    if ts == [] {
    } else {
      ReadExtend(o, e, ts[0], s, more);
      ReadElemsExtend(o, e, ts[1..], Read(o, e, ts[0], s).value.1, more);
    }
  }

  lemma ExistingIs(o: Order, k: Ty, e: Ty, entries: seq<(Val, Val)>, key: Val)
    requires Typed(o, k, e, entries)
    ensures Is(o, e, Existing(o, k, e, entries, key))
  {
    hide Is, Default, Slot;
  }

  lemma {:induction false} ReadEntriesExtend(o: Order, k: Ty, e: Ty, entries: seq<(Val, Val)>, n: nat, s: seq<u8>,
      more: seq<u8>)
    requires Strict(o) && Typed(o, k, e, entries) && Sorted(o, k, entries) && ReadEntries(o, k, e, entries, n, s).Some?
    ensures ReadEntries(o, k, e, entries, n, s + more) ==
      Some((ReadEntries(o, k, e, entries, n, s).value.0, ReadEntries(o, k, e, entries, n, s).value.1 + more))
    decreases TMap(k, e), 0, n
  {
    hide Read, Strict, Is, Store, Existing, Default, Typed, Sorted;
    if n == 0 {
    } else {
      ReadExtend(o, k, Default(o, k), s, more);
      var (key, s1) := Read(o, k, Default(o, k), s).value;
      var was := Existing(o, k, e, entries, key);
      ExistingIs(o, k, e, entries, key);
      ReadExtend(o, e, was, s1, more);
      var (v, s2) := Read(o, e, was, s1).value;
      StoreTyped(o, k, e, entries, key, v);
      ReadEntriesExtend(o, k, e, Store(o, k, entries, key, v), n - 1, s2, more);
    }
  }

  /** Of what write wrote, nothing short of the whole can be read: no object's bytes begin
      another's. */
  lemma ReadableIff(o: Order, ty: Ty, v: Val, t: Val, n: nat)
    requires Strict(o) && Is(o, ty, v) && Is(o, ty, t) && Clean(o, ty, t) && Portable(o, ty, v)
    requires n <= |Write(o, ty, v)|
    ensures Read(o, ty, t, Write(o, ty, v)[..n]).Some? <==> n == |Write(o, ty, v)|
  {
    hide Read, Write, Is, Clean, Portable, Strict;
    var w := Write(o, ty, v);
    ReadBack(o, ty, v, t, []);
    assert w[..n] + w[n..] == w && w + [] == w;
    if n == |w| { assert w[..n] == w; }
    if Read(o, ty, t, w[..n]).Some? {
      ReadExtend(o, ty, t, w[..n], w[n..]);
      assert |Read(o, ty, t, w[..n]).value.1 + w[n..]| == 0;
    }
  }

  lemma SortedParts(o: Order, k: Ty, done: seq<(Val, Val)>, left: seq<(Val, Val)>)
    requires left != [] && Sorted(o, k, done + left)
    ensures forall j | 0 <= j < |done| :: o(k, done[j].0, left[0].0)
    ensures done + [left[0]] + left[1..] == done + left
  {
    assert (done + left)[|done|] == left[0];
    assert forall j | 0 <= j < |done| :: (done + left)[j] == done[j];
  }

  predicate AllPortable(o: Order, k: Ty, e: Ty, entries: seq<(Val, Val)>)
    requires Typed(o, k, e, entries)
  {
    forall i | 0 <= i < |entries| :: Portable(o, k, entries[i].0) && Portable(o, e, entries[i].1)
  }

  lemma TypedParts(o: Order, k: Ty, e: Ty, left: seq<(Val, Val)>)
    requires left != [] && Typed(o, k, e, left) && AllPortable(o, k, e, left)
    ensures Is(o, k, left[0].0) && Is(o, e, left[0].1) && Typed(o, k, e, left[1..])
    ensures Portable(o, k, left[0].0) && Portable(o, e, left[0].1) && AllPortable(o, k, e, left[1..])
  {
    hide Is, Portable;
  }

  lemma NoEntries(o: Order, k: Ty, e: Ty, done: seq<(Val, Val)>, rest: seq<u8>)
    requires Strict(o) && Typed(o, k, e, done) && Sorted(o, k, done)
    ensures ReadEntries(o, k, e, done, 0, WriteEntries(o, k, e, []) + rest) == Some((done + [], rest))
  {
    assert done + [] == done && [] + rest == rest;
  }

  lemma WriteEntriesCons(o: Order, k: Ty, e: Ty, left: seq<(Val, Val)>, rest: seq<u8>)
    requires left != [] && Typed(o, k, e, left)
    ensures WriteEntries(o, k, e, left) + rest ==
            Write(o, k, left[0].0) + (Write(o, e, left[0].1) + (WriteEntries(o, k, e, left[1..]) + rest))
  {
    hide Write, Is;
    var a, b, c := Write(o, k, left[0].0), Write(o, e, left[0].1), WriteEntries(o, k, e, left[1..]);
    Assoc(a + b, c, rest);
    Assoc(a, b, c + rest);
  }

  lemma {:induction false} ReadBackEntries(o: Order, k: Ty, e: Ty, done: seq<(Val, Val)>, left: seq<(Val, Val)>,
      rest: seq<u8>)
    requires Strict(o) && Typed(o, k, e, done) && Typed(o, k, e, left) && Sorted(o, k, done + left)
      && Sorted(o, k, done)
    requires AllPortable(o, k, e, left)
    ensures ReadEntries(o, k, e, done, |left|, WriteEntries(o, k, e, left) + rest) == Some((done + left, rest))
    decreases TMap(k, e), 0, |left|
  {
    hide *;
    if left == [] {
      NoEntries(o, k, e, done, rest);
    } else {
      var (key, v) := left[0];
      TypedParts(o, k, e, left);
      SortedParts(o, k, done, left);
      WriteEntriesCons(o, k, e, left, rest);
      var s2 := WriteEntries(o, k, e, left[1..]) + rest;
      var s1 := Write(o, e, v) + s2;
      ReadBack(o, k, key, Default(o, k), s1);
      ReadBack(o, e, v, Default(o, e), s2);
      ReadEntriesCons(o, k, e, done, key, v, |left|, Write(o, k, key) + s1, s1, s2);
      ReadBackEntries(o, k, e, done + [left[0]], left[1..], rest);
    }
  }

  // ----- only NUL-free strings come back -----

  /** What a read leaves of the object it fills, the entries of its maps, has no NUL. */
  predicate KeptFree(o: Order, ty: Ty, t: Val)
    requires Is(o, ty, t)
    decreases ty
  {
    match ty
    case TVec(e) => forall i | 0 <= i < |t.elems| :: KeptFree(o, e, t.elems[i])
    case TMap(k, e) => NulFree(o, ty, t)
    case TEntry(f, r) => KeptFree(o, f, t.first) && KeptFree(o, r, t.rest)
    case _ => true
  }

  lemma {:induction false} CleanKept(o: Order, ty: Ty, t: Val)
    requires Is(o, ty, t)
    ensures Clean(o, ty, t) || NulFree(o, ty, t) ==> KeptFree(o, ty, t)
    decreases ty
  {
    match ty
    case TVec(e) =>
      forall i | 0 <= i < |t.elems|
        ensures Clean(o, e, t.elems[i]) || NulFree(o, e, t.elems[i]) ==> KeptFree(o, e, t.elems[i])
      {
        CleanKept(o, e, t.elems[i]);
      }
    case TEntry(f, r) =>
      CleanKept(o, f, t.first);
      CleanKept(o, r, t.rest);
    case _ =>
  }

  predicate EntriesFree(o: Order, k: Ty, e: Ty, entries: seq<(Val, Val)>)
    requires Typed(o, k, e, entries)
  {
    forall i | 0 <= i < |entries| :: NulFree(o, k, entries[i].0) && NulFree(o, e, entries[i].1)
  }

  lemma StoreFree(o: Order, k: Ty, e: Ty, entries: seq<(Val, Val)>, key: Val, v: Val)
    requires Strict(o) && Typed(o, k, e, entries) && Sorted(o, k, entries) && EntriesFree(o, k, e, entries)
    requires Is(o, k, key) && Is(o, e, v) && NulFree(o, k, key) && NulFree(o, e, v)
    ensures Typed(o, k, e, Store(o, k, entries, key, v)) && EntriesFree(o, k, e, Store(o, k, entries, key, v))
  {
    StoreTyped(o, k, e, entries, key, v);
    hide Strict, Is, NulFree, Sorted;
  }

  lemma ExistingFree(o: Order, k: Ty, e: Ty, entries: seq<(Val, Val)>, key: Val)
    requires Strict(o) && Typed(o, k, e, entries) && EntriesFree(o, k, e, entries)
    ensures Is(o, e, Existing(o, k, e, entries, key)) && KeptFree(o, e, Existing(o, k, e, entries, key))
  {
    hide Strict, Is, NulFree, KeptFree, Clean, Slot, Default;
    CleanKept(o, e, Existing(o, k, e, entries, key));
  }

  lemma {:induction false} ReadFree(o: Order, ty: Ty, t: Val, s: seq<u8>)
    requires Strict(o) && Is(o, ty, t) && KeptFree(o, ty, t) && Read(o, ty, t, s).Some?
    ensures NulFree(o, ty, Read(o, ty, t, s).value.0)
    decreases ty, 0
  {
    hide Strict, ReadElems, ReadEntries, Value32;
    match ty
    case TVec(e) =>
      var ts := Resize(o, e, t.elems, Value32(s));
      forall i | 0 <= i < |ts| ensures KeptFree(o, e, ts[i]) { CleanKept(o, e, Default(o, e)); }
      ReadElemsFree(o, e, ts, s[4..]);
    case TMap(k, e) =>
      ReadEntriesFree(o, k, e, t.entries, Value32(s), s[4..]);
    case TEntry(f, r) =>
      ReadFree(o, f, t.first, s);
      ReadFree(o, r, t.rest, Read(o, f, t.first, s).value.1);
    case _ =>
  }

  lemma {:induction false} ReadElemsFree(o: Order, e: Ty, ts: seq<Val>, s: seq<u8>)
    requires Strict(o) && (forall i | 0 <= i < |ts| :: Is(o, e, ts[i]) && KeptFree(o, e, ts[i]))
      && ReadElems(o, e, ts, s).Some?
    ensures forall i | 0 <= i < |ts| :: NulFree(o, e, ReadElems(o, e, ts, s).value.0[i])
    decreases e, |ts| + 1
  {
    hide Strict, Is, KeptFree, NulFree, Read;
    if ts == [] {
    } else {
      ReadFree(o, e, ts[0], s);
      ReadElemsFree(o, e, ts[1..], Read(o, e, ts[0], s).value.1);
    }
  }

  lemma {:induction false} ReadEntriesFree(o: Order, k: Ty, e: Ty, entries: seq<(Val, Val)>, n: nat, s: seq<u8>)
    requires Strict(o) && Typed(o, k, e, entries) && Sorted(o, k, entries) && EntriesFree(o, k, e, entries)
    requires ReadEntries(o, k, e, entries, n, s).Some?
    ensures EntriesFree(o, k, e, ReadEntries(o, k, e, entries, n, s).value.0)
    decreases TMap(k, e), 0, n
  {
    hide Strict, Is, KeptFree, NulFree, Read, Typed, Sorted, EntriesFree, Store, Existing, Clean;
    if n == 0 {
    } else {
      CleanKept(o, k, Default(o, k));
      ReadFree(o, k, Default(o, k), s);
      var (key, more) := Read(o, k, Default(o, k), s).value;
      ExistingFree(o, k, e, entries, key);
      ReadFree(o, e, Existing(o, k, e, entries, key), more);
      var (v, rest) := Read(o, e, Existing(o, k, e, entries, key), more).value;
      StoreTyped(o, k, e, entries, key, v);
      StoreFree(o, k, e, entries, key, v);
      ReadEntriesFree(o, k, e, Store(o, k, entries, key, v), n - 1, rest);
    }
  }

  /** An object whose counts fit comes back, into any object without map entries, exactly
      when its strings hold no NUL. */
  lemma ReadBackIff(o: Order, ty: Ty, v: Val, t: Val, rest: seq<u8>)
    requires Strict(o) && Is(o, ty, v) && Is(o, ty, t) && Clean(o, ty, t) && Fits(o, ty, v)
    ensures Read(o, ty, t, Write(o, ty, v) + rest) == Some((v, rest)) <==> NulFree(o, ty, v)
  {
    hide Strict, Is, Clean, Fits, NulFree, Read, Write, KeptFree;
    if NulFree(o, ty, v) {
      ReadBack(o, ty, v, t, rest);
    } else if Read(o, ty, t, Write(o, ty, v) + rest) == Some((v, rest)) {
      CleanKept(o, ty, t);
      ReadFree(o, ty, t, Write(o, ty, v) + rest);
      assert false;
    }
  }

  // ----- reading into an object that holds map entries -----

  /** `t` with its maps and strings emptied. */
  function Blank(o: Order, ty: Ty, t: Val): (b: Val)
    requires Is(o, ty, t)
    ensures Is(o, ty, b) && Clean(o, ty, b) && NulFree(o, ty, b) && (Fits(o, ty, t) ==> Fits(o, ty, b))
    decreases ty
  {
    match ty
    case TStr => Str([])
    case TVec(e) => Vec(seq(|t.elems|, i requires 0 <= i < |t.elems| => Blank(o, e, t.elems[i])))
    case TMap(k, e) => Dict([])
    case TEntry(f, r) => Entry(Blank(o, f, t.first), Blank(o, r, t.rest))
    case _ => t
  }

  /** `t` with the strings outside its maps emptied. */
  function Leftover(o: Order, ty: Ty, t: Val): (b: Val)
    requires Is(o, ty, t)
    ensures Is(o, ty, b)
    decreases ty
  {
    match ty
    case TStr => Str([])
    case TVec(e) => Vec(seq(|t.elems|, i requires 0 <= i < |t.elems| => Leftover(o, e, t.elems[i])))
    case TEntry(f, r) => Entry(Leftover(o, f, t.first), Leftover(o, r, t.rest))
    case _ => t
  }

  lemma {:induction false} LeftoverClean(o: Order, ty: Ty, t: Val)
    requires Is(o, ty, t)
    ensures Clean(o, ty, Leftover(o, ty, t)) <==> Clean(o, ty, t)
    decreases ty
  {
    match ty
    case TVec(e) =>
      var ks := Leftover(o, ty, t).elems;
      forall i | 0 <= i < |t.elems|
        ensures Clean(o, e, ks[i]) <==> Clean(o, e, t.elems[i])
      {
        LeftoverClean(o, e, t.elems[i]);
      }
    case TEntry(f, r) =>
      LeftoverClean(o, f, t.first);
      LeftoverClean(o, r, t.rest);
    case _ =>
  }

  lemma BlankFlat(o: Order, ty: Ty, t: Val, rest: seq<u8>)
    requires Strict(o) && Is(o, ty, t) && (ty.TNum? || ty.TBool? || ty.TStr? || ty.TEnd?)
    ensures Read(o, ty, t, Write(o, ty, Blank(o, ty, t)) + rest) == Some((Leftover(o, ty, t), rest))
  {
    assert Fits(o, ty, Blank(o, ty, t));
    ReadFlat(o, ty, Blank(o, ty, t), t, rest);
  }

  lemma BlankMap(o: Order, k: Ty, e: Ty, t: Val, rest: seq<u8>)
    requires Strict(o) && Is(o, TMap(k, e), t)
    ensures Read(o, TMap(k, e), t, Write(o, TMap(k, e), Dict([])) + rest) == Some((t, rest))
  {
    assert Count32(0) + [] + rest == Count32(0) + rest;
    ReadMap(o, k, e, t, 0, rest, t.entries, rest);
  }

  lemma ResizeSame(o: Order, e: Ty, ts: seq<Val>)
    requires forall i | 0 <= i < |ts| :: Is(o, e, ts[i])
    ensures Resize(o, e, ts, |ts|) == ts
  {
  }

  /** An object read blank keeps all its map entries. */
  lemma {:induction false} ReadBlank(o: Order, ty: Ty, t: Val, rest: seq<u8>)
    requires Strict(o) && Is(o, ty, t) && Fits(o, ty, t)
    ensures Read(o, ty, t, Write(o, ty, Blank(o, ty, t)) + rest) == Some((Leftover(o, ty, t), rest))
    decreases ty, 0
  {
    hide Read, ReadElems, ReadEntries, WriteElems, WriteEntries, Count32, Strict, Resize;
    match ty
    case TVec(e) =>
      var bs, ks := Blank(o, ty, t).elems, Leftover(o, ty, t).elems;
      Assoc(Count32(|bs|), WriteElems(o, e, bs), rest);
      ReadBlanks(o, e, t.elems, bs, ks, rest);
      ResizeSame(o, e, t.elems);
      ReadVec(o, e, t, |bs|, WriteElems(o, e, bs) + rest, ks, rest);
    case TMap(k, e) => BlankMap(o, k, e, t, rest);
    case TEntry(f, r) =>
      var b := Blank(o, ty, t);
      Assoc(Write(o, f, b.first), Write(o, r, b.rest), rest);
      ReadBlank(o, f, t.first, Write(o, r, b.rest) + rest);
      ReadBlank(o, r, t.rest, rest);
      ReadEntry(o, f, r, t, Write(o, ty, b) + rest, Leftover(o, f, t.first),
                Write(o, r, b.rest) + rest, Leftover(o, r, t.rest), rest);
    case _ => BlankFlat(o, ty, t, rest);
  }

  lemma {:induction false} ReadBlanks(o: Order, e: Ty, ts: seq<Val>, bs: seq<Val>, ks: seq<Val>, rest: seq<u8>)
    requires Strict(o) && |ts| == |bs| == |ks|
    requires forall i | 0 <= i < |bs| :: Is(o, e, bs[i])
    requires forall i | 0 <= i < |ts| ::
      Is(o, e, ts[i]) && Fits(o, e, ts[i]) && bs[i] == Blank(o, e, ts[i]) && ks[i] == Leftover(o, e, ts[i])
    ensures ReadElems(o, e, ts, WriteElems(o, e, bs) + rest) == Some((ks, rest))
    decreases e, |ts| + 1
  {
    hide Read, Write, Is, Clean, Fits, NulFree, Strict, Blank, Leftover, ReadElems;
    if ts == [] {
      ElemsNothing(o, e, ts, rest);
    } else {
      var more := WriteElems(o, e, bs[1..]) + rest;
      Assoc(Write(o, e, bs[0]), WriteElems(o, e, bs[1..]), rest);
      ReadBlank(o, e, ts[0], more);
      ReadBlanks(o, e, ts[1..], bs[1..], ks[1..], rest);
      ReadElemsCons(o, e, ts, Write(o, e, bs[0]) + more, ks[0], more, ks[1..], rest);
      assert [ks[0]] + ks[1..] == ks;
    }
  }

  /** An object is safe to read into, whatever is read, exactly when its maps are empty:
      read merges into the entries it finds. */
  lemma SafeTargetIff(o: Order, ty: Ty, t: Val)
    requires Strict(o) && Is(o, ty, t) && Fits(o, ty, t)
    ensures (forall v | Is(o, ty, v) && Portable(o, ty, v) :: Read(o, ty, t, Write(o, ty, v)) == Some((v, [])))
      <==> Clean(o, ty, t)
  {
    hide Strict, Is, Clean, Fits, NulFree, Read, Write, Blank, Leftover;
    if Clean(o, ty, t) {
      forall v | Is(o, ty, v) && Portable(o, ty, v) ensures Read(o, ty, t, Write(o, ty, v)) == Some((v, [])) {
        ReadBack(o, ty, v, t, []);
        assert Write(o, ty, v) + [] == Write(o, ty, v);
      }
    } else {
      var b := Blank(o, ty, t);
      ReadBlank(o, ty, t, []);
      LeftoverClean(o, ty, t);
      assert Write(o, ty, b) + [] == Write(o, ty, b);
      assert Portable(o, ty, b) && Leftover(o, ty, t) != b;
    }
  }

  // ----- wrap and unwrap -----

  /** A type whose objects are written as at least one byte. */
  predicate HasBytes(ty: Ty) {
    match ty
    case TNum(w) => w > 0
    case TEnd => false
    case TEntry(f, r) => HasBytes(f) || HasBytes(r)
    case _ => true
  }

  lemma {:induction false} WrittenIff(o: Order, ty: Ty, v: Val)
    requires Is(o, ty, v)
    ensures Write(o, ty, v) != [] <==> HasBytes(ty)
    decreases ty
  {
    match ty
    case TBool => Count32Back(if v.b then 1 else 0, []);
    case TVec(e) => Count32Back(|v.elems|, []);
    case TMap(k, e) => Count32Back(|v.entries|, []);
    case TEntry(f, r) =>
      WrittenIff(o, f, v.first);
      WrittenIff(o, r, v.rest);
    case _ =>
  }
}
