/** base/hash_table.h seen as a map from keys to stacks of entries, for any hash
    function and any number of buckets. */
module HashSpec {
  import opened Seqs
  import opened TrxData

  /** A hash_entry: its private copy of the key, and what it is embedded in. */
  datatype Slot<T> = Slot(key: Key, ent: T)

  /** The bucket rings, each from its head's `next` on. */
  type Table<T> = seq<seq<Slot<T>>>

  type HashFn = Key -> nat

  function Bucket(h: HashFn, k: Key, n: nat): (b: nat)
    requires n > 0
    ensures b < n
  {
    h(k) % n
  }

  function HasKey<T>(k: Key): Slot<T> -> bool { (sl: Slot<T>) => sl.key == k }

  /** Every slot hangs in the bucket its key hashes to. */
  ghost predicate Placed<T>(t: Table<T>, h: HashFn) {
    && t != []
    && forall b, i | 0 <= b < |t| && 0 <= i < |t[b]| :: Bucket(h, t[b][i].key, |t|) == b
  }

  function Entries<T>(b: seq<Slot<T>>): seq<T> {
    if b == [] then [] else [b[0].ent] + Entries(b[1..])
  }

  /** The entries stored under `k`, newest first. */
  function Stack<T>(t: Table<T>, h: HashFn, k: Key): seq<T>
    requires t != []
  {
    Entries(Filter(t[Bucket(h, k, |t|)], HasKey(k)))
  }

  function Insert<T>(t: Table<T>, h: HashFn, k: Key, e: T): Table<T>
    requires t != []
  {
    var b := Bucket(h, k, |t|);
    t[b := [Slot(k, e)] + t[b]]
  }

  function Lookup<T>(t: Table<T>, h: HashFn, k: Key): Option<T>
    requires t != []
  {
    LookupIn(t[Bucket(h, k, |t|)], k)
  }

  function LookupIn<T>(b: seq<Slot<T>>, k: Key): Option<T> {
    if b == [] then None else if b[0].key == k then Some(b[0].ent) else LookupIn(b[1..], k)
  }

  function Delete<T>(t: Table<T>, h: HashFn, k: Key): Table<T>
    requires t != []
  {
    var b := Bucket(h, k, |t|);
    t[b := RemoveFirst(t[b], HasKey(k))]
  }

  function Top<T>(s: seq<T>): Option<T> { if s == [] then None else Some(s[0]) }

  function Pop<T>(s: seq<T>): seq<T> { if s == [] then [] else s[1..] }

  lemma ConsEntries<T>(sl: Slot<T>, b: seq<Slot<T>>, k: Key)
    ensures Entries(Filter([sl] + b, HasKey(k))) ==
            if sl.key == k then [sl.ent] + Entries(Filter(b, HasKey(k))) else Entries(Filter(b, HasKey(k)))
  {
    assert ([sl] + b)[1..] == b;
    var rest := Filter(b, HasKey<T>(k));
    assert ([sl] + rest)[1..] == rest;
    assert [] + rest == rest;
  }

  lemma InsertPlaced<T>(t: Table<T>, h: HashFn, k: Key, e: T)
    requires Placed(t, h)
    ensures Placed(Insert(t, h, k, e), h)
  {
    var b := Bucket(h, k, |t|);
    assert forall i | 0 < i < |t[b]| + 1 :: ([Slot(k, e)] + t[b])[i] == t[b][i-1];
  }

  /** Insertion pushes on its own key's stack and touches no other key, colliding or not. */
  lemma InsertPushes<T>(t: Table<T>, h: HashFn, k: Key, e: T, k': Key)
    requires Placed(t, h)
    ensures Placed(Insert(t, h, k, e), h)
    ensures Stack(Insert(t, h, k, e), h, k') == if k' == k then [e] + Stack(t, h, k) else Stack(t, h, k')
  {
    InsertPlaced(t, h, k, e);
    ConsEntries(Slot(k, e), t[Bucket(h, k, |t|)], k');
  }

  lemma {:induction false} LookupInTop<T>(b: seq<Slot<T>>, k: Key)
    ensures LookupIn(b, k) == Top(Entries(Filter(b, HasKey(k))))
  {
    if b == [] {
    } else {
      LookupInTop(b[1..], k);
    }
  }

  /** Lookup answers the newest entry stored under the key, or none. */
  lemma LookupIsTop<T>(t: Table<T>, h: HashFn, k: Key)
    requires t != []
    ensures Lookup(t, h, k) == Top(Stack(t, h, k))
  {
    LookupInTop(t[Bucket(h, k, |t|)], k);
  }

  lemma {:induction false} RemoveFirstKeeps<T>(b: seq<Slot<T>>, k: Key, x: Slot<T>)
    requires x in RemoveFirst(b, HasKey(k))
    ensures x in b
  {
    if b == [] || b[0].key == k || x == b[0] {
    } else {
      RemoveFirstKeeps(b[1..], k, x);
    }
  }

  /** Deletion pops its own key's stack and touches no other key. */
  lemma DeletePops<T>(t: Table<T>, h: HashFn, k: Key, k': Key)
    requires Placed(t, h)
    ensures Placed(Delete(t, h, k), h)
    ensures Stack(Delete(t, h, k), h, k') == if k' == k then Pop(Stack(t, h, k)) else Stack(t, h, k')
  {
    var b := Bucket(h, k, |t|);
    var t': Table<T> := Delete(t, h, k);
    forall c: nat, i: nat | c < |t'| && i < |t'[c]| ensures Bucket(h, t'[c][i].key, |t'|) == c {
      if c == b { RemoveFirstKeeps(t[b], k, t'[b][i]); }
    }
    if k' == k {
      RemoveFirstMatches(t[b], HasKey(k));
    } else if Bucket(h, k', |t|) == b {
      RemoveFirstOthers(t[b], HasKey<T>(k), HasKey<T>(k'));
    }
  }
}
