/** The lists of bf_module.c on real rings: what add_rule, delete_rule and delete_rules do
    to the nodes is what RuleStore says they do to its sequences. */
module RuleRings {
  import opened Seqs
  import opened TrxData
  import opened RuleIndex
  import opened RingList
  import RuleStore

  type Node = Link<Entry>

  /** The entries the nodes are embedded in. */
  function Vals(nodes: seq<Node>): (r: seq<Entry>)
    reads nodes`val
    ensures |r| == |nodes|
  {
    if nodes == [] then [] else [nodes[0].val] + Vals(nodes[1..])
  }

  lemma {:induction false} ValsAt(nodes: seq<Node>, i: nat)
    requires i < |nodes|
    ensures Vals(nodes)[i] == nodes[i].val
  {
    if i == 0 {
    } else {
      ValsAt(nodes[1..], i - 1);
    }
  }

  lemma {:induction false} ValsSplit(a: seq<Node>, b: seq<Node>)
    ensures Vals(a + b) == Vals(a) + Vals(b)
  {
    if a == [] {
      assert a + b == b;
    } else {
      ValsSplit(a[1..], b);
      assert (a + b)[1..] == a[1..] + b && (a + b)[0] == a[0];
      Assoc([a[0].val], Vals(a[1..]), Vals(b));
    }
  }

  lemma ValsOne(node: Node)
    ensures Vals([node]) == [node.val]
  {
    assert [node][1..] == [];
  }

  /** list_del_rcu: the entry drops out but keeps its next pointer. */
  method DelRcu(entry: Node, ghost a: seq<Node>, ghost b: seq<Node>)
    requires IsRing(a + [entry] + b) && a != []
    modifies entry`prev, Last(a)`next, First(b + a)`prev
    ensures IsRing(a + b) && entry.prev == null && entry.next == old(entry.next) && entry !in a && entry !in b
  {
    Pieces(a + [entry], b);
    PathSplit(a, [entry]);
    DistinctSplit(a, [entry]);
    assert entry in a + [entry] && First(b + (a + [entry])) == First(b + a);
    RingList.Unlink(entry.prev, entry.next, a, entry, b);
    entry.prev := null;
  }

  /** A ring passed in part: `done` behind the head, `rest` still ahead. */
  lemma Midway(head: Node, done: seq<Node>, rest: seq<Node>)
    requires IsRing([head] + done + rest)
    ensures rest != [] ==>
      && rest[0] != head && rest[0].next == First(rest[1..] + [head])
      && [head] + done + rest == ([head] + done) + [rest[0]] + rest[1..]
  {
    if rest != [] {
      assert [head] + done + rest == ([head] + done) + [rest[0]] + rest[1..];
      Pieces([head] + done, rest);
      Pieces(([head] + done) + [rest[0]], rest[1..]);
      assert head in [head] + done;
      assert First(rest[1..] + (([head] + done) + [rest[0]])) == First(rest[1..] + [head]);
    }
  }

  lemma ValsRemoved(xs: seq<Node>, i: nat)
    requires i < |xs|
    ensures Vals(RemoveAt(xs, i)) == RemoveAt(Vals(xs), i)
  {
    var a, m, b := xs[..i], [xs[i]], xs[i+1..];
    hide Vals;
    Parts(xs, i);
    ValsSplit(a, m + b);
    ValsSplit(m, b);
    ValsSplit(a, b);
    Middle(Vals(a), Vals(m), Vals(b));
  }

  lemma Parts(xs: seq<Node>, i: nat)
    requires i < |xs|
    ensures xs == xs[..i] + ([xs[i]] + xs[i+1..]) && RemoveAt(xs, i) == xs[..i] + xs[i+1..]
  {
  }

  lemma Middle(a: seq<Entry>, m: seq<Entry>, b: seq<Entry>)
    requires |m| == 1
    ensures RemoveAt(a + (m + b), |a|) == a + b
  {
  }

  lemma Passed(head: Node, xs: seq<Node>, i: nat)
    requires IsRing([head] + xs) && i <= |xs|
    ensures head !in xs && head.next == (if xs == [] then head else xs[0])
    ensures 0 < i ==> xs[i-1].next == if i < |xs| then xs[i] else head
  {
    Pieces([head], xs);
    if 0 < i {
      if i < |xs| { assert Linked(xs[i-1], xs[i-1+1]); } else { assert Last([head] + xs) == xs[i-1]; }
    }
  }

  lemma Around(head: Node, xs: seq<Node>, i: nat)
    requires i < |xs|
    ensures [head] + xs == ([head] + xs[..i]) + [xs[i]] + xs[i+1..]
    ensures Last([head] + xs[..i]) == if i == 0 then head else xs[i-1]
    ensures First(xs[i+1..] + ([head] + xs[..i])) == if i + 1 < |xs| then xs[i+1] else head
  {
  }

  method DelAt(head: Node, pos: Node, ghost xs: seq<Node>, ghost i: nat) returns (ghost ys: seq<Node>)
    requires IsRing([head] + xs) && i < |xs| && pos == xs[i]
    modifies head`next, head`prev, xs`next, xs`prev
    ensures ys == RemoveAt(xs, i) && IsRing([head] + ys) && pos.next == old(pos.next)
    ensures Vals(ys) == RemoveAt(old(Vals(xs)), i)
  {
    Around(head, xs, i);
    ValsRemoved(xs, i);
    hide IsRing, Vals;
    assert Last([head] + xs[..i]) == head || Last([head] + xs[..i]) in xs;
    DelRcu(pos, [head] + xs[..i], xs[i+1..]);
    ys := RemoveAt(xs, i);
    Assoc([head], xs[..i], xs[i+1..]);
  }

  /** One pass of delete_rule over a chain: the first entry with the key is unlinked. */
  method UnlinkFirst(head: Node, b: Base, ghost xs: seq<Node>) returns (ghost ys: seq<Node>)
    requires IsRing([head] + xs)
    modifies head`next, head`prev, xs`next, xs`prev
    ensures IsRing([head] + ys) && forall x | x in ys :: x in xs
    ensures Vals(ys) == RemoveFirst(old(Vals(xs)), WithKey(KeyBytes(b)))
  {
    ghost var p, vals := WithKey(KeyBytes(b)), Vals(xs);
    hide IsRing, RemoveFirst, KeyBytes;
    ghost var i := 0;
    Passed(head, xs, 0);
    var pos: Node := head.next;
    while pos != head
      invariant i <= |xs| && pos == (if i < |xs| then xs[i] else head) && head !in xs
      invariant forall j | 0 <= j < i :: !p(vals[j])
      invariant IsRing([head] + xs)
      decreases |xs| - i
    {
      Passed(head, xs, i);
      ValsAt(xs, i);
      if KeyBytes(pos.val.base) == KeyBytes(b) {
        RemoveFirstAt(vals, p, i);
        ys := DelAt(head, pos, xs, i);
        return;
      }
      i := i + 1;
      Passed(head, xs, i);
      pos := pos.next;
    }
    RemoveFirstAt(vals, p, i);
    ys := xs;
  }

  /** The body of the full_list pass: unlink a match, or go past it. */
  method DelIf(head: Node, pos: Node, hit: bool, ghost kept: seq<Node>, ghost rest: seq<Node>)
    returns (ghost kept': seq<Node>)
    requires IsRing([head] + kept + rest) && rest != [] && pos == rest[0]
    modifies pos`prev, Last([head] + kept)`next, First(rest[1..] + ([head] + kept))`prev
    ensures kept' == (if hit then kept else kept + [pos]) && IsRing([head] + kept' + rest[1..])
    ensures pos.next == old(pos.next)
    ensures Vals(kept') == if hit then old(Vals(kept)) else old(Vals(kept)) + [pos.val]
  {
    Midway(head, kept, rest);
    hide IsRing;
    ValsSplit(kept, [pos]);
    ValsOne(pos);
    kept' := kept;
    if hit {
      DelRcu(pos, [head] + kept, rest[1..]);
    } else {
      kept' := kept + [pos];
      Assoc([head], kept, [pos]);
    }
  }

  /** What the pass has kept and queued of the first `n` entries. */
  ghost predicate SoFar(vals: seq<Entry>, n: nat, k: Key, kept: seq<Entry>, queued: seq<Entry>) {
    && n <= |vals| && kept == Filter(vals[..n], Not(WithKey(k))) && queued == Filter(vals[..n], WithKey(k))
  }

  lemma SoFarStart(vals: seq<Entry>, k: Key)
    ensures SoFar(vals, 0, k, [], [])
  {
    RuleStore.NoneYet(vals, k);
  }

  lemma SoFarNext(vals: seq<Entry>, n: nat, k: Key, kept: seq<Entry>, queued: seq<Entry>)
    requires n < |vals| && SoFar(vals, n, k, kept, queued)
    ensures KeyBytes(vals[n].base) == k ==> SoFar(vals, n + 1, k, kept, queued + [vals[n]])
    ensures KeyBytes(vals[n].base) != k ==> SoFar(vals, n + 1, k, kept + [vals[n]], queued)
  {
    hide Filter;
    RuleStore.FilterNext(vals, n, WithKey(k));
    RuleStore.FilterNext(vals, n, Not<Entry>(WithKey(k)));
    assert kept + [] == kept && queued + [] == queued;
  }

  lemma Ahead(head: Node, kept: seq<Node>, xs: seq<Node>, n: nat)
    requires n < |xs| && IsRing([head] + kept + xs[n..]) && (forall x | x in kept :: x in xs)
    ensures xs[n..] != [] && xs[n..][0] == xs[n] && xs[n..][1..] == xs[n+1..]
    ensures xs[n].next == First(xs[n+1..] + [head])
    ensures Last([head] + kept) == head || Last([head] + kept) in xs
    ensures First(xs[n+1..] + ([head] + kept)) == head || First(xs[n+1..] + ([head] + kept)) in xs
  {
    Midway(head, kept, xs[n..]);
  }

  lemma AllBehind(seen: seq<Node>, xs: seq<Node>, vals: seq<Entry>, k: Key, n: nat, kept: seq<Entry>,
      queued: seq<Entry>)
    requires n == |xs| == |vals| && SoFar(vals, n, k, kept, queued)
    ensures kept == Filter(vals, Not(WithKey(k))) && queued == Filter(vals, WithKey(k)) && seen + xs[n..] == seen
  {
    assert vals[..n] == vals;
  }

  lemma AllAhead(head: Node, xs: seq<Node>)
    requires IsRing([head] + xs)
    ensures xs[0..] == xs && IsRing([head] + [] + xs) && head !in xs && head.next == First(xs + [head])
  {
    assert [head] + [] + xs == [head] + xs;
    Pieces([head], xs);
  }

  /** The pass stands on `pos`, the `n`-th node, with `kept` behind it. */
  ghost predicate Standing(head: Node, pos: Node, kept: seq<Node>, xs: seq<Node>, n: nat)
    reads head, kept, xs
  {
    && n <= |xs| && IsRing([head] + kept + xs[n..]) && pos == First(xs[n..] + [head])
    && head !in xs && forall x | x in kept :: x in xs
  }

  method Pass(head: Node, pos: Node, b: Base, queued: seq<Entry>, ghost kept: seq<Node>,
              ghost xs: seq<Node>, ghost n: nat, ghost vals: seq<Entry>)
    returns (next: Node, queued': seq<Entry>, ghost kept': seq<Node>)
    requires n < |xs| && Standing(head, pos, kept, xs, n)
    requires vals == Vals(xs) && SoFar(vals, n, KeyBytes(b), Vals(kept), queued)
    modifies head`next, head`prev, xs`next, xs`prev
    ensures Standing(head, next, kept', xs, n + 1) && SoFar(vals, n + 1, KeyBytes(b), Vals(kept'), queued')
  {
    hide IsRing, KeyBytes, SoFar;
    ValsAt(xs, n);
    Ahead(head, kept, xs, n);
    SoFarNext(vals, n, KeyBytes(b), Vals(kept), queued);
    hide Vals;
    queued' := queued;
    var hit := KeyBytes(pos.val.base) == KeyBytes(b);
    kept' := DelIf(head, pos, hit, kept, xs[n..]);
    if hit { queued' := queued + [pos.val]; }
    next := pos.next;
  }

  /** The full_list pass of delete_rule: every entry with the key is unlinked and queued. */
  method UnlinkAll(head: Node, b: Base, ghost xs: seq<Node>) returns (queued: seq<Entry>, ghost ys: seq<Node>)
    requires IsRing([head] + xs)
    modifies head`next, head`prev, xs`next, xs`prev
    ensures IsRing([head] + ys) && forall x | x in ys :: x in xs
    ensures Vals(ys) == Filter(old(Vals(xs)), Not(WithKey(KeyBytes(b))))
    ensures queued == Filter(old(Vals(xs)), WithKey(KeyBytes(b)))
  {
    ghost var k, vals := KeyBytes(b), Vals(xs);
    hide IsRing, KeyBytes, Filter, SoFar;
    queued, ys := [], [];
    ghost var n := 0;
    AllAhead(head, xs);
    SoFarStart(vals, k);
    var pos: Node := head.next;
    while pos != head
      invariant Standing(head, pos, ys, xs, n) && SoFar(vals, n, k, Vals(ys), queued)
      invariant Vals(xs) == vals
      decreases |xs| - n
    {
      pos, queued, ys := Pass(head, pos, b, queued, ys, xs, n, vals);
      n := n + 1;
    }
    AllBehind([head] + ys, xs, vals, k, n, Vals(ys), queued);
  }

  // ----- lists -----

  /** One of the module's lists: its head, and the nodes hanging on it. */
  class RuleList {
    const head: Node
    ghost var nodes: seq<Node>

    ghost predicate Valid()
      reads this, head, nodes
    {
      IsRing([head] + nodes)
    }

    ghost function Footprint(): set<object>
      reads this
    {
      {this, head} + set n | n in nodes
    }

    ghost function Entries(): seq<Entry>
      reads this, nodes`val
    {
      Vals(nodes)
    }

    /** INIT_LIST_HEAD; the head is embedded in a rule structure of its own. */
    constructor (own: Entry)
      ensures Valid() && Entries() == [] && fresh(Footprint())
    {
      head := new Link(own);
      nodes := [];
      new;
      assert [head] + nodes == [head];
    }

    /** list_add_tail_rcu of a new node. */
    method Append(e: Entry)
      requires Valid()
      modifies Footprint()
      ensures Valid() && Entries() == old(Entries()) + [e]
      ensures fresh(Footprint() - old(Footprint()))
    {
      hide IsRing;
      var node := new Link(e);
      ValsSplit(nodes, [node]);
      ValsOne(node);
      assert Last([head] + nodes) == head || Last([head] + nodes) in nodes;
      AddTail(node, head, nodes);
      Assoc([head], nodes, [node]);
      nodes := nodes + [node];
    }

    method DropFirst(b: Base)
      requires Valid()
      modifies Footprint()
      ensures Valid() && Entries() == RemoveFirst(old(Entries()), WithKey(KeyBytes(b)))
      ensures Footprint() <= old(Footprint())
    {
      hide IsRing, RemoveFirst, KeyBytes;
      nodes := UnlinkFirst(head, b, nodes);
    }

    method DropAll(b: Base) returns (queued: seq<Entry>)
      requires Valid()
      modifies Footprint()
      ensures Valid() && Entries() == Filter(old(Entries()), Not(WithKey(KeyBytes(b))))
      ensures queued == Filter(old(Entries()), WithKey(KeyBytes(b)))
      ensures Footprint() <= old(Footprint())
    {
      hide IsRing, Filter, KeyBytes;
      queued, nodes := UnlinkAll(head, b, nodes);
    }
  }

  ghost predicate Apart(full: RuleList, ins: RuleList, outs: RuleList)
    reads full, ins, outs
  {
    && full.Footprint() !! ins.Footprint() && full.Footprint() !! outs.Footprint()
    && ins.Footprint() !! outs.Footprint()
  }

  /** Keys are unique, and each chain is the sublist of full_list for it. */
  ghost predicate Together(full: seq<Entry>, ins: seq<Entry>, outs: seq<Entry>) {
    UniqueKeys(full) && ins == Filter(full, InChain(CHAIN_INPUT)) && outs == Filter(full, InChain(CHAIN_OUTPUT))
  }

  lemma QueuedOff(full: seq<Entry>, ins: seq<Entry>, outs: seq<Entry>, k: Key, e: Entry)
    requires UniqueKeys(full) && e in Filter(full, WithKey(k))
    requires ins == Filter(full, InChain(CHAIN_INPUT)) && outs == Filter(full, InChain(CHAIN_OUTPUT))
    ensures e !in Filter(full, Not(WithKey(k))) && e !in RemoveFirst(ins, WithKey(k))
      && e !in RemoveFirst(outs, WithKey(k))
  {
    hide Filter, RemoveFirst, UniqueKeys;
    var rest := Filter(full, Not(WithKey(k)));
    UniqueMeansOne(full, k);
    FilterIn(full, WithKey(k), e);
    FilterIn(full, Not(WithKey(k)), e);
    ChainAfterDelete(full, CHAIN_INPUT, k);
    ChainAfterDelete(full, CHAIN_OUTPUT, k);
    FilterIn(rest, InChain(CHAIN_INPUT), e);
    FilterIn(rest, InChain(CHAIN_OUTPUT), e);
  }

  lemma QueuedAllOff(full: seq<Entry>, ins: seq<Entry>, outs: seq<Entry>, k: Key)
    ensures Together(full, ins, outs) ==> forall e | e in Filter(full, WithKey(k)) ::
      e !in Filter(full, Not(WithKey(k))) && e !in RemoveFirst(ins, WithKey(k)) && e !in RemoveFirst(outs, WithKey(k))
  {
    if Together(full, ins, outs) {
      hide Filter, RemoveFirst, UniqueKeys;
      forall e | e in Filter(full, WithKey(k))
        ensures e !in Filter(full, Not(WithKey(k))) && e !in RemoveFirst(ins, WithKey(k))
          && e !in RemoveFirst(outs, WithKey(k))
      {
        QueuedOff(full, ins, outs, k, e);
      }
    }
  }

  method DeleteFromChains(full: RuleList, ins: RuleList, outs: RuleList, b: Base)
    requires full.Valid() && ins.Valid() && outs.Valid() && Apart(full, ins, outs)
    modifies ins.Footprint(), outs.Footprint()
    ensures full.Valid() && ins.Valid() && outs.Valid() && Apart(full, ins, outs)
    ensures full.Entries() == old(full.Entries()) && full.Footprint() == old(full.Footprint())
    ensures ins.Entries() == RemoveFirst(old(ins.Entries()), WithKey(KeyBytes(b)))
    ensures outs.Entries() == RemoveFirst(old(outs.Entries()), WithKey(KeyBytes(b)))
  {
    hide RemoveFirst, KeyBytes, Vals, IsRing;
    ins.DropFirst(b);
    outs.DropFirst(b);
  }

  /** delete_rule on the three lists: RuleStore's effect on each, and the nodes stay apart;
      with unique keys, what it queues hangs on none of the rings any more. */
  method DeleteRule(full: RuleList, ins: RuleList, outs: RuleList, b: Base) returns (queued: seq<Entry>)
    requires full.Valid() && ins.Valid() && outs.Valid() && Apart(full, ins, outs)
    modifies full.Footprint(), ins.Footprint(), outs.Footprint()
    ensures full.Valid() && ins.Valid() && outs.Valid() && Apart(full, ins, outs)
    ensures full.Entries() == Filter(old(full.Entries()), Not(WithKey(KeyBytes(b))))
    ensures ins.Entries() == RemoveFirst(old(ins.Entries()), WithKey(KeyBytes(b)))
    ensures outs.Entries() == RemoveFirst(old(outs.Entries()), WithKey(KeyBytes(b)))
    ensures queued == Filter(old(full.Entries()), WithKey(KeyBytes(b)))
    ensures old(Together(full.Entries(), ins.Entries(), outs.Entries())) ==>
      forall e | e in queued :: e !in full.Entries() && e !in ins.Entries() && e !in outs.Entries()
  {
    hide Filter, RemoveFirst, KeyBytes, Vals, IsRing, Together;
    QueuedAllOff(full.Entries(), ins.Entries(), outs.Entries(), KeyBytes(b));
    DeleteFromChains(full, ins, outs, b);
    queued := full.DropAll(b);
  }

  method AddChain(full: RuleList, ins: RuleList, outs: RuleList, e: Entry)
    requires full.Valid() && ins.Valid() && outs.Valid() && Apart(full, ins, outs)
    modifies ins.Footprint(), outs.Footprint()
    ensures full.Valid() && ins.Valid() && outs.Valid() && Apart(full, ins, outs)
    ensures full.Entries() == old(full.Entries()) && full.Footprint() == old(full.Footprint())
    ensures ins.Entries() == old(ins.Entries()) + if e.base.chain == CHAIN_INPUT then [e] else []
    ensures outs.Entries() == old(outs.Entries()) + if e.base.chain == CHAIN_OUTPUT then [e] else []
  {
    hide Vals, IsRing;
    if e.base.chain == CHAIN_INPUT {
      ins.Append(e);
    } else if e.base.chain == CHAIN_OUTPUT {
      outs.Append(e);
    }
  }

  /** add_rule on the three lists, for the copy `e` of the rule. */
  method AddRule(full: RuleList, ins: RuleList, outs: RuleList, e: Entry)
    requires full.Valid() && ins.Valid() && outs.Valid() && Apart(full, ins, outs)
    modifies full.Footprint(), ins.Footprint(), outs.Footprint()
    ensures full.Valid() && ins.Valid() && outs.Valid() && Apart(full, ins, outs)
    ensures full.Entries() == old(full.Entries()) + [e]
    ensures ins.Entries() == old(ins.Entries()) + if e.base.chain == CHAIN_INPUT then [e] else []
    ensures outs.Entries() == old(outs.Entries()) + if e.base.chain == CHAIN_OUTPUT then [e] else []
  {
    hide Vals, IsRing;
    full.Append(e);
    AddChain(full, ins, outs, e);
  }
}
