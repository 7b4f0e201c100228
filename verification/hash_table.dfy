/** base/hash_table.h on real rings: one ring of hash_entry nodes per bucket. */
module HashTable {
  import opened Seqs
  import opened TrxData
  import opened HashSpec
  import opened RingList

  /** hash_entry: the list_head first, then the copy of the key. */
  type HashEntry = Link<Key>

  lemma {:induction false} EntriesAt(b: seq<Slot<HashEntry>>, i: nat)
    requires i < |b|
    ensures |Entries(b)| == |b| && Entries(b)[i] == b[i].ent
  {
    if |b| <= 1 {
    } else {
      EntriesAt(b[1..], if i == 0 then 0 else i - 1);
    }
  }

  /** The bucket of every node, head or entry, a table is made of. */
  type Homes = map<HashEntry, nat>

  ghost function Nodes(b: seq<Slot<HashEntry>>): set<HashEntry> { set x | x in Entries(b) }

  /** The slots' keys are the nodes' own. */
  ghost predicate KeysOk(b: seq<Slot<HashEntry>>)
    reads Nodes(b)
  {
    forall i | 0 <= i < |Entries(b)| && i < |b| :: Entries(b)[i].val == b[i].key
  }

  /** A bucket's ring spells out its slots. */
  ghost predicate BucketOk(head: HashEntry, b: seq<Slot<HashEntry>>)
    reads {head} + Nodes(b)
  {
    IsRing([head] + Entries(b)) && KeysOk(b)
  }

  /** A ring none of whose pointers changed. */
  twostate lemma RingKept(s: seq<HashEntry>)
    requires old(IsRing(s))
    requires forall x | x in s :: x.next == old(x.next) && x.prev == old(x.prev)
    ensures IsRing(s)
  {
  }

  lemma {:induction false} EntriesLength(b: seq<Slot<HashEntry>>)
    ensures |Entries(b)| == |b|
  {
    if b == [] {
    } else {
      EntriesLength(b[1..]);
    }
  }

  lemma BucketKeys(head: HashEntry, b: seq<Slot<HashEntry>>)
    requires BucketOk(head, b)
    ensures forall i | 0 <= i < |b| :: b[i].ent in Entries(b) && b[i].ent.val == b[i].key && b[i].ent != head
  {
    Pieces([head], Entries(b));
    EntriesLength(b);
    forall i | 0 <= i < |b| ensures b[i].ent in Entries(b) && b[i].ent.val == b[i].key && b[i].ent != head {
      EntriesAt(b, i);
    }
  }

  lemma KeysMade(b: seq<Slot<HashEntry>>)
    requires forall i | 0 <= i < |b| :: b[i].ent.val == b[i].key
    ensures KeysOk(b)
  {
    forall i | 0 <= i < |Entries(b)| && i < |b| ensures Entries(b)[i].val == b[i].key { EntriesAt(b, i); }
  }

  ghost predicate HomeOk(head: HashEntry, b: seq<Slot<HashEntry>>, home: Homes, n: nat) {
    forall x | x in [head] + Entries(b) :: x in home && home[x] == n
  }

  lemma PushFacts(head: HashEntry, b: seq<Slot<HashEntry>>, key: Key, e: HashEntry)
    requires BucketOk(head, b) && e !in [head] + Entries(b)
    ensures IsRing([head] + Entries(b)) && e != head && e !in Entries(b)
    ensures head in [head] + Entries(b) && First(Entries(b) + [head]) in [head] + Entries(b)
    ensures forall i | 0 <= i < |b| :: b[i].ent != e && b[i].ent.val == b[i].key
  {
    BucketKeys(head, b);
    assert forall x | x == head || x in Entries(b) :: x in [head] + Entries(b);
  }

  lemma Pushed(head: HashEntry, b: seq<Slot<HashEntry>>, key: Key, e: HashEntry)
    requires IsRing([head] + [e] + Entries(b)) && e.val == key
    requires forall i | 0 <= i < |b| :: b[i].ent.val == b[i].key
    ensures BucketOk(head, [Slot(key, e)] + b)
  {
    KeysPushed(b, key, e);
    hide IsRing, KeysOk, Entries;
    ConsEntry(Slot(key, e), b);
    Assoc([head], [e], Entries(b));
  }

  lemma KeysPushed(b: seq<Slot<HashEntry>>, key: Key, e: HashEntry)
    requires e.val == key && forall i | 0 <= i < |b| :: b[i].ent.val == b[i].key
    ensures KeysOk([Slot(key, e)] + b)
  {
    hide KeysOk;
    KeysMade([Slot(key, e)] + b);
  }

  lemma LinkedHomes(table: seq<HashEntry>, abs: Table<HashEntry>, home: Homes, n: nat, k: Key, e: HashEntry)
    requires |abs| == |table| && n < |abs| && e !in home
    requires forall m | 0 <= m < |table| :: HomeOk(table[m], abs[m], home, m)
    ensures var abs', home' := abs[n := [Slot(k, e)] + abs[n]], home[e := n];
      forall m | 0 <= m < |table| :: HomeOk(table[m], abs'[m], home', m)
  {
    ConsEntry(Slot(k, e), abs[n]);
  }

  lemma UnlinkedHomes(table: seq<HashEntry>, abs: Table<HashEntry>, home: Homes, n: nat, i: nat)
    requires |abs| == |table| && n < |abs| && i < |abs[n]| && IsRing([table[n]] + Entries(abs[n]))
    requires forall m | 0 <= m < |table| :: HomeOk(table[m], abs[m], home, m)
    ensures var abs', home' := abs[n := RemoveAt(abs[n], i)], home - {abs[n][i].ent};
      forall m | 0 <= m < |table| :: HomeOk(table[m], abs'[m], home', m)
  {
    CutFacts(table[n], abs[n], i);
    assert abs[n][i].ent in [table[n]] + Entries(abs[n]);
  }

  lemma LookupNext(b: seq<Slot<HashEntry>>, key: Key, i: nat)
    requires i < |b|
    ensures LookupIn(b[i..], key) == if b[i].key == key then Some(b[i].ent) else LookupIn(b[i+1..], key)
  {
    assert b[i..][1..] == b[i+1..];
  }

  /** The list_for_each of a lookup in one bucket. */
  method FirstWith(head: HashEntry, key: Key, ghost b: seq<Slot<HashEntry>>) returns (r: Link?<Key>, ghost i: nat)
    requires BucketOk(head, b)
    ensures LookupIn(b, key) == if r == null then None else Some(r)
    ensures r != null ==> i < |b| && b[i].ent == r && b[i].key == key && forall j | 0 <= j < i :: b[j].key != key
  {
    BucketKeys(head, b);
    assert IsRing([head] + Entries(b)) && LookupIn<HashEntry>([], key) == None;
    hide IsRing, BucketOk, LookupIn, Entries;
    i := 0;
    assert b[0..] == b;
    NextInChain(head, b, 0);
    var pos: HashEntry := head.next;
    while pos != head
      invariant i <= |b| && pos == (if i < |b| then b[i].ent else head)
      invariant LookupIn(b[i..], key) == LookupIn(b, key)
      invariant forall j | 0 <= j < i :: b[j].key != key
      decreases |b| - i
    {
      LookupNext(b, key, i);
      if pos.val == key { return pos, i; }
      i := i + 1;
      NextInChain(head, b, i);
      pos := pos.next;
    }
    assert b[i..] == [];
    return null, i;
  }

  class HashTable {
    const hash: HashFn
    var table: seq<HashEntry>
    /** The table as a map from keys to stacks of entries. */
    ghost var abs: Table<HashEntry>
    ghost var home: Homes

    ghost predicate Valid()
      reads this, home.Keys
    {
      && |abs| == |table| && Placed(abs, hash)
      && (forall n | 0 <= n < |table| :: HomeOk(table[n], abs[n], home, n))
      && (forall n | 0 <= n < |table| :: BucketOk(table[n], abs[n]))
    }

    /** hash_table_init: `b` must be at least one. */
    constructor (b: nat, h: HashFn)
      requires b >= 1
      ensures Valid() && hash == h && |table| == b && fresh(home.Keys)
      ensures forall i | 0 <= i < b :: abs[i] == []
    {
      hash := h;
      new;
      var heads: seq<HashEntry> := [];
      ghost var homes: Homes := map[];
      var i := b;
      while i > 0
        invariant i <= b && |heads| == b - i
        invariant forall j | 0 <= j < |heads| :: heads[j] in homes && homes[heads[j]] == i + j && IsRing([heads[j]])
        invariant fresh(homes.Keys)
      {
        i := i - 1;
        var head := new Link<Key>([]);
        heads := [head] + heads;
        homes := homes[head := i];
      }
      table := heads;
      abs := seq(b, _ => []);
      home := homes;
    }

    /** A bucket, and where its nodes are at home. */
    lemma BucketReady(n: nat)
      requires Valid() && n < |table|
      ensures BucketOk(table[n], abs[n]) && IsRing([table[n]] + Entries(abs[n]))
      ensures forall x | x in [table[n]] + Entries(abs[n]) :: x in home && home[x] == n
    {
      assert HomeOk(table[n], abs[n], home, n) && BucketOk(table[n], abs[n]);
    }

    /** Buckets whose nodes a step left alone are as they were. */
    twostate lemma OthersKept(n: nat)
      requires old(Valid())
      requires table == old(table) && |abs| == |table|
      requires forall m | 0 <= m < |table| && m != n :: abs[m] == old(abs)[m]
      requires forall x | x in old(home) && old(home)[x] != n :: unchanged(x)
      ensures forall m | 0 <= m < |table| && m != n :: BucketOk(table[m], abs[m])
    {
      hide IsRing, Placed;
      forall m | 0 <= m < |table| && m != n ensures BucketOk(table[m], abs[m]) {
        assert HomeOk(table[m], abs[m], old(home), m) && old(BucketOk(table[m], abs[m]));
        var s := old([table[m]] + Entries(abs[m]));
        assert forall i | 0 <= i < |s| :: s[i] in old(home) && old(home)[s[i]] == m;
        assert forall i | 0 <= i < |Entries(abs[m])| :: Entries(abs[m])[i] == s[i+1];
        RingKept(s);
      }
    }

    /** The pointer half of insertion. */
    method PushFront(e: HashEntry, key: Key, head: HashEntry, ghost b: seq<Slot<HashEntry>>)
      requires BucketOk(head, b) && e !in [head] + Entries(b)
      modifies e, [head] + Entries(b)
      ensures BucketOk(head, [Slot(key, e)] + b)
    {
      hide IsRing, Entries, BucketOk;
      PushFacts(head, b, key, e);
      ghost var xs := Entries(b);
      e.next, e.prev, e.val := e, e, key;
      RingList.Add(e, head, xs);
      Pushed(head, b, key, e);
    }

    /** hash_table_insert: the entry takes a copy of the key and goes first in its bucket. */
    method Insert(e: HashEntry, key: Key)
      requires Valid() && e !in home
      modifies `abs, `home, e, home.Keys
      ensures Valid() && home == old(home)[e := Bucket(hash, key, |table|)]
      ensures abs == HashSpec.Insert(old(abs), hash, key, e)
    {
      InsertPlaced(abs, hash, key, e);
      LinkEntry(e, key, Bucket(hash, key, |table|));
    }

    /** list_add of the entry to bucket n. */
    method LinkEntry(e: HashEntry, key: Key, n: nat)
      requires Valid() && e !in home && n < |table|
      requires Placed(abs[n := [Slot(key, e)] + abs[n]], hash)
      modifies `abs, `home, e, home.Keys
      ensures Valid() && home == old(home)[e := n]
      ensures abs == old(abs)[n := [Slot(key, e)] + old(abs)[n]]
    {
      hide Placed, IsRing, HomeOk, Entries;
      ghost var b := abs[n];
      BucketReady(n);
      LinkedHomes(table, abs, home, n, key, e);
      abs, home := abs[n := [Slot(key, e)] + abs[n]], home[e := n];
      assert BucketOk(table[n], b);
      hide BucketOk;
      PushFront(e, key, table[n], b);
      OthersKept(n);
    }

    /** hash_table_lookup_key: the first entry of the bucket with this key. The position
        is reported for the proof of deletion only. */
    method Lookup(key: Key) returns (r: Link?<Key>, ghost i: nat)
      requires Valid()
      ensures HashSpec.Lookup(abs, hash, key) == if r == null then None else Some(r)
      ensures r != null ==> var b := abs[Bucket(hash, key, |table|)];
        i < |b| && b[i].ent == r && b[i].key == key && forall j | 0 <= j < i :: b[j].key != key
    {
      var n := Bucket(hash, key, |table|);
      assert BucketOk(table[n], abs[n]);
      r, i := FirstWith(table[n], key, abs[n]);
    }

    /** The hash_table_for_each loops. */
    method ForEach() returns (seen: seq<HashEntry>)
      requires Valid()
      ensures seen == AllEntries(abs)
    {
      assert AllEntries(abs[..0]) == [];
      hide Placed, Entries, AllEntries, Distinct, Path;
      seen := [];
      var i := 0;
      while i < |table|
        invariant i <= |table| && seen == AllEntries(abs[..i]) && Valid()
      {
        assert BucketOk(table[i], abs[i]);
        var bucket := Visit(table[i], Entries(abs[i]));
        AllEntriesSnoc(abs, i);
        seen := seen + bucket;
        i := i + 1;
      }
      assert abs[..i] == abs;
    }

    /** Nothing is yielded twice: what a bucket holds is at home there and nowhere else. */
    lemma {:induction false} EachOnce(n: nat, i: nat, j: nat)
      requires Valid() && n <= |table| && i < j < |AllEntries(abs[n..])|
      ensures AllEntries(abs[n..])[i] != AllEntries(abs[n..])[j]
      decreases |table| - n
    {
      if n < |table| {
        var xs, rest := Entries(abs[n]), AllEntries(abs[n+1..]);
        assert abs[n..][0] == abs[n] && abs[n..][1..] == abs[n+1..];
        if i >= |xs| {
          hide AllEntries, Entries, Placed;
          EachOnce(n + 1, i - |xs|, j - |xs|);
        } else if j >= |xs| {
          AtHome(n, xs[i]);
          HomeBehind(n + 1, rest[j-|xs|]);
        } else {
          InBucketOnce(n, i, j);
        }
      }
    }

    lemma AtHome(n: nat, e: HashEntry)
      requires Valid() && n < |table| && e in Entries(abs[n])
      ensures e in home && home[e] == n
    {
      assert HomeOk(table[n], abs[n], home, n) && e in [table[n]] + Entries(abs[n]);
    }

    lemma HomeBehind(n: nat, e: HashEntry)
      requires Valid() && n <= |table| && e in AllEntries(abs[n..])
      ensures e in home && home[e] >= n
    {
      InAllEntries(abs[n..], e);
      var m :| 0 <= m < |abs[n..]| && e in Entries(abs[n..][m]);
      AtHome(n + m, e);
    }

    lemma InBucketOnce(n: nat, i: nat, j: nat)
      requires Valid() && n < |table| && i < j < |Entries(abs[n])|
      ensures Entries(abs[n])[i] != Entries(abs[n])[j]
    {
      assert BucketOk(table[n], abs[n]);
      Pieces([table[n]], Entries(abs[n]));
    }

    /** What the loops yield is what some key's stack holds. */
    lemma YieldedIsStored(e: HashEntry)
      requires Valid()
      ensures e in AllEntries(abs) ==> e in Stack(abs, hash, e.val)
      ensures (exists k :: e in Stack(abs, hash, k)) ==> e in AllEntries(abs)
    {
      InAllEntries(abs, e);
      if n :| 0 <= n < |abs| && e in Entries(abs[n]) {
        assert BucketOk(table[n], abs[n]);
        var i := EntryHasSlot(abs[n], e);
        EntriesAt(abs[n], i);
        SlotInStack(abs[n], e, i);
      }
      if k :| e in Stack(abs, hash, k) {
        var b := abs[Bucket(hash, k, |abs|)];
        var i := EntryHasSlot(Filter(b, HasKey(k)), e);
        FilterIn(b, HasKey(k), Filter(b, HasKey(k))[i]);
        var j :| 0 <= j < |b| && b[j] == Filter(b, HasKey<HashEntry>(k))[i];
        SlotInStack(b, e, j);
      }
    }

    /** The pointer half of deletion. */
    method Detach(r: HashEntry, head: HashEntry, ghost b: seq<Slot<HashEntry>>, ghost i: nat)
      requires BucketOk(head, b) && i < |b| && b[i].ent == r
      modifies [head] + Entries(b)
      ensures IsRing([r]) && BucketOk(head, RemoveAt(b, i))
    {
      CutFacts(head, b, i);
      BucketKeys(head, b);
      ghost var xs := Entries(b);
      ghost var front, back := [head] + xs[..i], xs[i+1..];
      hide IsRing, Entries;
      assert Last(front) in [head] + xs && First(back + front) in [head] + xs && r in [head] + xs;
      DelInit(r, front, back);
      KeysMade(RemoveAt(b, i));
    }

    /** hash_table_del_key: the found entry leaves its bucket as a ring of its own. */
    method DelKey(key: Key) returns (r: Link?<Key>)
      requires Valid()
      modifies `abs, `home, home.Keys
      ensures Valid()
      ensures HashSpec.Lookup(old(abs), hash, key) == if r == null then None else Some(r)
      ensures r == null ==> abs == old(abs) && home == old(home)
      ensures r != null ==> abs == HashSpec.Delete(old(abs), hash, key) && home == old(home) - {r} && IsRing([r])
    {
      ghost var i;
      r, i := Lookup(key);
      if r != null {
        DeletePops(abs, hash, key, key);
        RemoveFirstAt(abs[Bucket(hash, key, |table|)], HasKey(key), i);
        UnlinkEntry(r, Bucket(hash, key, |table|), i);
      }
    }

    /** list_del_init of the i-th entry of bucket n. */
    method UnlinkEntry(r: HashEntry, n: nat, ghost i: nat)
      requires Valid() && n < |table| && i < |abs[n]| && abs[n][i].ent == r
      requires Placed(abs[n := RemoveAt(abs[n], i)], hash)
      modifies `abs, `home, home.Keys
      ensures Valid() && IsRing([r])
      ensures abs == old(abs)[n := RemoveAt(old(abs)[n], i)] && home == old(home) - {r}
    {
      hide Placed, IsRing, HomeOk, Entries;
      ghost var b := abs[n];
      BucketReady(n);
      UnlinkedHomes(table, abs, home, n, i);
      abs, home := abs[n := RemoveAt(abs[n], i)], home - {r};
      assert BucketOk(table[n], b);
      hide BucketOk;
      Detach(r, table[n], b, i);
      OthersKept(n);
    }
  }

  lemma ConsEntry(sl: Slot<HashEntry>, b: seq<Slot<HashEntry>>)
    ensures Entries([sl] + b) == [sl.ent] + Entries(b)
  {
    assert ([sl] + b)[1..] == b;
  }

  /** Cutting entry i out of a ring and out of its chain. */
  lemma CutFacts(head: HashEntry, b: seq<Slot<HashEntry>>, i: nat)
    requires IsRing([head] + Entries(b)) && i < |b|
    ensures |Entries(b)| == |b| && Entries(b)[i] == b[i].ent
    ensures var xs := Entries(b); var front, back := [head] + xs[..i], xs[i+1..];
      && [head] + xs == front + [b[i].ent] + back
      && [head] + Entries(RemoveAt(b, i)) == front + back
      && (forall x | x in front + back :: x != b[i].ent && (x == head || x in xs))
    ensures forall j | 0 <= j < |b| - 1 :: RemoveAt(b, i)[j].ent != b[i].ent && RemoveAt(b, i)[j] in b
  {
    var xs := Entries(b);
    EntriesCut(b, i);
    var front, back := [head] + xs[..i], xs[i+1..];
    hide IsRing, Entries;
    CutRing(head, xs, i);
    RingApart(front, b[i].ent, back);
    CutSlots(b, i, front + back);
  }

  lemma CutRing(head: HashEntry, xs: seq<HashEntry>, i: nat)
    requires i < |xs|
    ensures var front, back := [head] + xs[..i], xs[i+1..];
      && [head] + xs == front + [xs[i]] + back && [head] + (xs[..i] + xs[i+1..]) == front + back
      && forall x | x in front + back :: x == head || x in xs
  {
  }

  lemma RingApart(front: seq<HashEntry>, e: HashEntry, back: seq<HashEntry>)
    requires IsRing(front + [e] + back)
    ensures forall x | x in front + back :: x != e
  {
    Pieces(front + [e], back);
    DistinctSplit(front, [e]);
  }

  lemma CutSlots(b: seq<Slot<HashEntry>>, i: nat, left: seq<HashEntry>)
    requires i < |b| && (forall x | x in Entries(RemoveAt(b, i)) :: x in left) && forall x | x in left :: x != b[i].ent
    ensures forall j | 0 <= j < |b| - 1 :: RemoveAt(b, i)[j].ent != b[i].ent && RemoveAt(b, i)[j] in b
  {
    var c := RemoveAt(b, i);
    forall j | 0 <= j < |c| ensures c[j].ent != b[i].ent && c[j] in b {
      EntriesAt(c, j);
      assert c[j].ent in Entries(c);
      assert c[j] == b[if j < i then j else j + 1];
    }
  }

  lemma {:induction false} EntriesCut(b: seq<Slot<HashEntry>>, i: nat)
    requires i < |b|
    ensures |Entries(b)| == |b| && Entries(b)[i] == b[i].ent
    ensures Entries(RemoveAt(b, i)) == Entries(b)[..i] + Entries(b)[i+1..]
  {
    EntriesAt(b, i);
    if i == 0 {
      assert RemoveAt(b, 0) == b[1..];
    } else {
      EntriesCut(b[1..], i - 1);
      ConsEntry(b[0], RemoveAt(b[1..], i - 1));
      ConsCut(b, i);
    }
  }

  lemma ConsCut(b: seq<Slot<HashEntry>>, i: nat)
    requires 0 < i < |b|
    ensures RemoveAt(b, i) == [b[0]] + RemoveAt(b[1..], i - 1)
  {
  }

  /** The pointer that leads to node i of a ring's entries, or back to the head. */
  lemma NextInRing(head: HashEntry, xs: seq<HashEntry>, i: nat)
    requires IsRing([head] + xs) && i <= |xs|
    ensures (if i == 0 then head else xs[i-1]).next == if i < |xs| then xs[i] else head
    ensures i < |xs| ==> xs[i] != head
  {
    hide IsRing;
    assert [head] + xs == ([head] + xs[..i]) + xs[i..];
    Pieces([head] + xs[..i], xs[i..]);
    if i < |xs| {
      assert xs[i] in xs[i..] && head in [head] + xs[..i];
    }
  }

  lemma NextInChain(head: HashEntry, b: seq<Slot<HashEntry>>, i: nat)
    requires IsRing([head] + Entries(b)) && i <= |b|
    ensures (if i == 0 then head else b[i-1].ent).next == if i < |b| then b[i].ent else head
    ensures i < |b| ==> b[i].ent != head
  {
    hide IsRing, Entries;
    EntriesLength(b);
    if i < |b| { EntriesAt(b, i); }
    if i > 0 { EntriesAt(b, i - 1); }
    NextInRing(head, Entries(b), i);
  }

  /** Bucket by bucket, each from its head's next on. */
  function AllEntries(t: Table<HashEntry>): seq<HashEntry> {
    if t == [] then [] else Entries(t[0]) + AllEntries(t[1..])
  }

  lemma {:induction false} AllEntriesSnoc(t: Table<HashEntry>, n: nat)
    requires n < |t|
    ensures AllEntries(t[..n+1]) == AllEntries(t[..n]) + Entries(t[n])
  {
    if n == 0 {
      assert t[..1] == [t[0]] && t[..0] == [];
    } else {
      AllEntriesSnoc(t[1..], n - 1);
      assert t[..n+1][1..] == t[1..][..n] && t[..n][1..] == t[1..][..n-1];
      Assoc(Entries(t[0]), AllEntries(t[1..][..n-1]), Entries(t[n]));
    }
  }

  lemma {:induction false} InAllEntries(t: Table<HashEntry>, e: HashEntry)
    ensures e in AllEntries(t) <==> exists n | 0 <= n < |t| :: e in Entries(t[n])
  {
    if t == [] {
    } else {
      InAllEntries(t[1..], e);
      assert forall n | 0 <= n < |t| - 1 :: t[1..][n] == t[n+1];
      if n :| 0 <= n < |t| && e in Entries(t[n]) {
        if n > 0 { assert e in Entries(t[1..][n-1]); }
      }
    }
  }

  lemma {:induction false} SlotInStack(b: seq<Slot<HashEntry>>, e: HashEntry, i: nat)
    requires i < |b| && b[i].ent == e
    ensures e in Entries(b) && e in Entries(Filter(b, HasKey(b[i].key)))
  {
    ConsEntries(b[0], b[1..], b[i].key);
    assert [b[0]] + b[1..] == b;
    hide Filter, Entries;
    if i == 0 {
    } else {
      SlotInStack(b[1..], e, i - 1);
    }
  }

  lemma {:induction false} EntryHasSlot(b: seq<Slot<HashEntry>>, e: HashEntry) returns (i: nat)
    requires e in Entries(b)
    ensures i < |b| && b[i].ent == e
  {
    if b[0].ent == e {
      i := 0;
    } else {
      i := EntryHasSlot(b[1..], e);
      i := i + 1;
    }
  }
}
