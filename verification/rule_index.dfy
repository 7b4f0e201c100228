/** The three structures every rule is linked into, and when they agree. */
module RuleIndex {
  import opened Seqs
  import opened TrxData
  import opened HashSpec

  /** filter_rule_list: the identifying fields are written once, by add_rule. */
  class Entry {
    const base: Base
    var off: u8
    var policy: u8
    var id: u32

    constructor (fr: Rule)
      ensures base == fr.base && Fr() == fr
    {
      base, off, policy, id := fr.base, fr.off, fr.policy, fr.id;
    }

    function Fr(): Rule
      reads this
    {
      Rule(base, off, policy, id)
    }
  }

  function WithKey(k: Key): Entry -> bool { (e: Entry) => KeyBytes(e.base) == k }

  function InChain(c: u8): Entry -> bool { (e: Entry) => e.base.chain == c }

  /** Each chain list is the sublist of full_list for that chain, in the same order, and
      the hash table holds under every key just the full_list entries with that key. */
  ghost predicate Coherent(full: seq<Entry>, ins: seq<Entry>, outs: seq<Entry>, t: Table<Entry>, h: HashFn) {
    && Placed(t, h)
    && ins == Filter(full, InChain(CHAIN_INPUT))
    && outs == Filter(full, InChain(CHAIN_OUTPUT))
    && forall k :: Stack(t, h, k) == Reverse(Filter(full, WithKey(k)))
  }

  predicate UniqueKeys(full: seq<Entry>) {
    forall i, j | 0 <= i < j < |full| :: full[i].base != full[j].base
  }

  lemma StackAfterAdd(full: seq<Entry>, t: Table<Entry>, h: HashFn, e: Entry, k: Key)
    requires Placed(t, h) && Stack(t, h, k) == Reverse(Filter(full, WithKey(k)))
    ensures Stack(Insert(t, h, KeyBytes(e.base), e), h, k) == Reverse(Filter(full + [e], WithKey(k)))
  {
    InsertPushes(t, h, KeyBytes(e.base), e, k);
    FilterAppend(full, [e], WithKey(k));
    ReverseAppend(Filter(full, WithKey(k)), Filter([e], WithKey(k)));
    assert Reverse([e]) == [e];
  }

  /** Agreement means one population: an entry is on full_list exactly when the hash table
      holds it, always under the bytes of its own fields, and on a chain exactly when it
      is on full_list and of that chain. */
  lemma SameEntries(full: seq<Entry>, ins: seq<Entry>, outs: seq<Entry>, t: Table<Entry>, h: HashFn, e: Entry, k: Key)
    requires Coherent(full, ins, outs, t, h)
    ensures e in full <==> e in Stack(t, h, KeyBytes(e.base))
    ensures e in Stack(t, h, k) ==> KeyBytes(e.base) == k
    ensures e in ins <==> e in full && e.base.chain == CHAIN_INPUT
    ensures e in outs <==> e in full && e.base.chain == CHAIN_OUTPUT
  {
    FilterIn(full, WithKey(KeyBytes(e.base)), e);
    ReverseIn(Filter(full, WithKey(KeyBytes(e.base))), e);
    FilterIn(full, WithKey(k), e);
    ReverseIn(Filter(full, WithKey(k)), e);
    FilterIn(full, InChain(CHAIN_INPUT), e);
    FilterIn(full, InChain(CHAIN_OUTPUT), e);
  }

  /** add_rule keeps the agreement, whether or not the key is new. */
  lemma AddKeepsCoherent(full: seq<Entry>, ins: seq<Entry>, outs: seq<Entry>, t: Table<Entry>, h: HashFn, e: Entry)
    requires Coherent(full, ins, outs, t, h)
    ensures Coherent(full + [e],
                     if e.base.chain == CHAIN_INPUT then ins + [e] else ins,
                     if e.base.chain == CHAIN_OUTPUT then outs + [e] else outs,
                     Insert(t, h, KeyBytes(e.base), e), h)
  {
    FilterAppend(full, [e], InChain(CHAIN_INPUT));
    FilterAppend(full, [e], InChain(CHAIN_OUTPUT));
    InsertPlaced(t, h, KeyBytes(e.base), e);
    forall k ensures Stack(Insert(t, h, KeyBytes(e.base), e), h, k) == Reverse(Filter(full + [e], WithKey(k))) {
      StackAfterAdd(full, t, h, e, k);
    }
  }

  lemma ChainAfterDelete(full: seq<Entry>, c: u8, k: Key)
    requires |Filter(full, WithKey(k))| <= 1
    ensures RemoveFirst(Filter(full, InChain(c)), WithKey(k)) == Filter(Filter(full, Not(WithKey(k))), InChain(c))
  {
    FilterTwice(full, WithKey(k), InChain(c));
    FilterLength(Filter(full, WithKey(k)), InChain(c));
    RemoveFirstIsAll(Filter(full, InChain(c)), WithKey(k));
    FilterTwice(full, Not(WithKey(k)), InChain(c));
  }

  lemma FilterBoth(full: seq<Entry>, k: Key, k': Key)
    ensures Filter(Filter(full, Not(WithKey(k))), WithKey(k')) == if k' == k then [] else Filter(full, WithKey(k'))
  {
    FilterTwice(full, Not(WithKey(k)), WithKey(k'));
    var s := Filter(full, WithKey(k'));
    forall e | e in s ensures WithKey(k')(e) { FilterIn(full, WithKey(k'), e); }
    FilterTrivial(s, Not(WithKey(k)));
  }

  lemma StackAfterDelete(full: seq<Entry>, t: Table<Entry>, h: HashFn, k: Key, k': Key)
    requires Placed(t, h) && Stack(t, h, k') == Reverse(Filter(full, WithKey(k')))
    ensures k' != k ==> Stack(Delete(t, h, k), h, k') == Reverse(Filter(Filter(full, Not(WithKey(k))), WithKey(k')))
    ensures k' == k ==>
      (Stack(Delete(t, h, k), h, k') == Reverse(Filter(Filter(full, Not(WithKey(k))), WithKey(k')))
       <==> |Filter(full, WithKey(k))| <= 1)
  {
    DeletePops(t, h, k, k');
    FilterBoth(full, k, k');
    ReverseLength(Filter(full, WithKey(k')));
  }

  /** delete_rule unlinks the first chain match and one hash entry but every full_list
      match: the structures still agree exactly when the key is stored at most once. */
  lemma DeleteKeepsCoherentIff(full: seq<Entry>, ins: seq<Entry>, outs: seq<Entry>, t: Table<Entry>, h: HashFn, k: Key)
    requires Coherent(full, ins, outs, t, h)
    ensures Coherent(Filter(full, Not(WithKey(k))), RemoveFirst(ins, WithKey(k)), RemoveFirst(outs, WithKey(k)),
      Delete(t, h, k), h)
       <==> |Filter(full, WithKey(k))| <= 1
  {
    forall k'
      ensures k' != k ==> Stack(Delete(t, h, k), h, k') == Reverse(Filter(Filter(full, Not(WithKey(k))), WithKey(k')))
    {
      StackAfterDelete(full, t, h, k, k');
    }
    StackAfterDelete(full, t, h, k, k);
    DeletePops(t, h, k, k);
    if |Filter(full, WithKey(k))| <= 1 {
      ChainAfterDelete(full, CHAIN_INPUT, k);
      ChainAfterDelete(full, CHAIN_OUTPUT, k);
    }
  }

  /** Nothing reaches `e` once delete_rule has dealt with key `k`. */
  predicate Unreachable(e: Entry, ins: seq<Entry>, outs: seq<Entry>, t: Table<Entry>, h: HashFn, k: Key)
    requires t != []
  {
    && e !in RemoveFirst(ins, WithKey(k)) && e !in RemoveFirst(outs, WithKey(k))
    && e !in Stack(Delete(t, h, k), h, KeyBytes(e.base))
  }

  lemma DeletedUnreachable(full: seq<Entry>, ins: seq<Entry>, outs: seq<Entry>, t: Table<Entry>, h: HashFn, k: Key,
      e: Entry)
    requires Coherent(full, ins, outs, t, h)
    requires |Filter(full, WithKey(k))| <= 1 && e in Filter(full, WithKey(k))
    ensures Unreachable(e, ins, outs, t, h, k)
  {
    var rest := Filter(full, Not(WithKey(k)));
    FilterIn(full, WithKey(k), e);
    DeletePops(t, h, k, k);
    ReverseLength(Filter(full, WithKey(k)));
    ChainAfterDelete(full, CHAIN_INPUT, k);
    ChainAfterDelete(full, CHAIN_OUTPUT, k);
    FilterIn(full, Not(WithKey(k)), e);
    FilterIn(rest, InChain(CHAIN_INPUT), e);
    FilterIn(rest, InChain(CHAIN_OUTPUT), e);
  }

  lemma DuplicateReachable(full: seq<Entry>, ins: seq<Entry>, outs: seq<Entry>, t: Table<Entry>, h: HashFn, k: Key)
    requires Coherent(full, ins, outs, t, h) && |Filter(full, WithKey(k))| > 1
    ensures exists e | e in Filter(full, WithKey(k)) :: !Unreachable(e, ins, outs, t, h, k)
  {
    var gone := Filter(full, WithKey(k));
    ReverseLength(gone);
    DeletePops(t, h, k, k);
    var e := Reverse(gone)[1];
    ReverseIn(gone, e);
    FilterIn(full, WithKey(k), e);
    assert Pop(Reverse(gone))[0] == e;
  }

  /** The memory safety of delete_rule rests on key uniqueness: what it queues for
      freeing is out of reach exactly when the key was stored at most once. */
  lemma DeleteSafeIff(full: seq<Entry>, ins: seq<Entry>, outs: seq<Entry>, t: Table<Entry>, h: HashFn, k: Key)
    requires Coherent(full, ins, outs, t, h)
    ensures (forall e | e in Filter(full, WithKey(k)) :: Unreachable(e, ins, outs, t, h, k))
      <==> |Filter(full, WithKey(k))| <= 1
  {
    hide Unreachable;
    if |Filter(full, WithKey(k))| <= 1 {
      forall e | e in Filter(full, WithKey(k)) ensures Unreachable(e, ins, outs, t, h, k) {
        DeletedUnreachable(full, ins, outs, t, h, k, e);
      }
    } else {
      DuplicateReachable(full, ins, outs, t, h, k);
    }
  }

  lemma {:induction false} UniqueMeansOne(full: seq<Entry>, k: Key)
    requires UniqueKeys(full)
    ensures |Filter(full, WithKey(k))| <= 1
  {
    if full == [] {
    } else {
      UniqueMeansOne(full[1..], k);
      if WithKey(k)(full[0]) {
        forall e | e in full[1..] ensures !WithKey(k)(e) { KeyBytesInjective(e.base, full[0].base); }
        FilterTrivial(full[1..], WithKey(k));
      }
    }
  }

  lemma {:induction false} FilterUnique(full: seq<Entry>, p: Entry -> bool, i: nat, j: nat)
    requires UniqueKeys(full) && i < j < |Filter(full, p)|
    ensures Filter(full, p)[i].base != Filter(full, p)[j].base
  {
    if !p(full[0]) {
      FilterUnique(full[1..], p, i, j);
    } else if i == 0 {
      FilterIn(full[1..], p, Filter(full[1..], p)[j-1]);
    } else {
      FilterUnique(full[1..], p, i - 1, j - 1);
    }
  }
}
