/** base/list.h: intrusive circular doubly linked rings. A list_head is modelled
    together with the structure it is the first member of (`val`), so that going from
    the ring node to its structure is going nowhere. */
module RingList {

  class Link<T> {
    var next: Link?<T>
    var prev: Link?<T>
    var val: T

    /** INIT_LIST_HEAD. */
    constructor (v: T)
      ensures IsRing([this]) && val == v
    {
      next, prev, val := this, this, v;
    }
  }

  ghost predicate Linked<T>(a: Link<T>, b: Link<T>)
    reads a, b
  {
    a.next == b && b.prev == a
  }

  function First<T>(s: seq<Link<T>>): (r: Link<T>)
    requires s != []
    ensures r in s
  {
    s[0]
  }

  function Last<T>(s: seq<Link<T>>): (r: Link<T>)
    requires s != []
    ensures r in s
  {
    s[|s|-1]
  }

  ghost predicate Distinct<T>(s: seq<Link<T>>) {
    forall i, j | 0 <= i < j < |s| :: s[i] != s[j]
  }

  /** Consecutive nodes point at each other. */
  ghost predicate Path<T>(s: seq<Link<T>>)
    reads s
  {
    forall i | 0 <= i < |s| - 1 :: Linked(s[i], s[i+1])
  }

  /** The nodes of a ring in next order, each once; s[0] serves as the head. */
  ghost predicate IsRing<T>(s: seq<Link<T>>)
    reads s
  {
    s != [] && Distinct(s) && Path(s) && Linked(Last(s), First(s))
  }

  lemma PathJoin<T>(a: seq<Link<T>>, b: seq<Link<T>>)
    requires Path(a) && Path(b) && (a != [] && b != [] ==> Linked(Last(a), First(b)))
    ensures Path(a + b)
  {
  }

  lemma PathSplit<T>(a: seq<Link<T>>, b: seq<Link<T>>)
    requires Path(a + b)
    ensures Path(a) && Path(b) && (a != [] && b != [] ==> Linked(Last(a), First(b)))
  {
    forall i | 0 <= i < |a| - 1 ensures Linked(a[i], a[i+1]) { assert Linked((a + b)[i], (a + b)[i+1]); }
    forall i | 0 <= i < |b| - 1 ensures Linked(b[i], b[i+1]) { assert Linked((a + b)[|a|+i], (a + b)[|a|+i+1]); }
    if a != [] && b != [] { assert Linked((a + b)[|a|-1], (a + b)[|a|-1+1]); }
  }

  lemma DistinctJoin<T>(a: seq<Link<T>>, b: seq<Link<T>>)
    requires Distinct(a) && Distinct(b) && forall x | x in a :: x !in b
    ensures Distinct(a + b)
  {
    forall i, j | 0 <= i < j < |a + b| ensures (a + b)[i] != (a + b)[j] {
      if i < |a| <= j { assert a[i] in a && b[j-|a|] in b; }
    }
  }

  lemma DistinctSplit<T>(a: seq<Link<T>>, b: seq<Link<T>>)
    requires Distinct(a + b)
    ensures Distinct(a) && Distinct(b) && forall x | x in a :: x !in b
  {
    forall i, j | 0 <= i < j < |a| ensures a[i] != a[j] { assert (a + b)[i] != (a + b)[j]; }
    forall i, j | 0 <= i < j < |b| ensures b[i] != b[j] { assert (a + b)[|a|+i] != (a + b)[|a|+j]; }
    forall x | x in a ensures x !in b {
      var i :| 0 <= i < |a| && a[i] == x;
      forall j | 0 <= j < |b| ensures b[j] != x { assert (a + b)[i] != (a + b)[|a|+j]; }
    }
  }

  /** The facts of a ring, piece by piece. */
  lemma Pieces<T>(a: seq<Link<T>>, b: seq<Link<T>>)
    requires IsRing(a + b)
    ensures Path(a) && Path(b) && Distinct(a) && Distinct(b) && forall x | x in a :: x !in b
    ensures a != [] ==> Linked(Last(a), First(b + a))
    ensures b != [] ==> Linked(Last(b), First(a + b))
  {
    PathSplit(a, b);
    DistinctSplit(a, b);
    assert Last(a + b) == if b == [] then Last(a) else Last(b);
  }

  lemma Assemble<T>(a: seq<Link<T>>, b: seq<Link<T>>)
    requires a != [] && Path(a) && Path(b) && Distinct(a) && Distinct(b) && forall x | x in a :: x !in b
    requires Linked(Last(a), First(b + a))
    requires b != [] ==> Linked(Last(b), First(a))
    ensures IsRing(a + b)
  {
    PathJoin(a, b);
    DistinctJoin(a, b);
  }

  /** Any node of a ring can serve as the head. */
  lemma Rotate<T>(a: seq<Link<T>>, b: seq<Link<T>>)
    requires IsRing(a + b)
    ensures IsRing(b + a)
  {
    Pieces(a, b);
    if a == [] || b == [] {
      assert b + a == a + b;
    } else {
      Assemble(b, a);
    }
  }

  /** __list_add: `node` goes between the end of `a` and what follows it on the ring. */
  method AddBetween<T>(node: Link<T>, prev: Link<T>, next: Link<T>, ghost a: seq<Link<T>>, ghost b: seq<Link<T>>)
    requires IsRing(a + b) && node !in a && node !in b && a != [] && prev == Last(a) && next == First(b + a)
    modifies node`next, node`prev, prev`next, next`prev
    ensures IsRing(a + [node] + b)
  {
    Pieces(a, b);
    next.prev := node;
    node.next := next;
    node.prev := prev;
    prev.next := node;
    PathJoin(a, [node]);
    DistinctJoin(a, [node]);
    Assemble(a + [node], b);
  }

  /** list_add: right behind the head. */
  method Add<T>(node: Link<T>, head: Link<T>, ghost xs: seq<Link<T>>)
    requires IsRing([head] + xs) && node != head && node !in xs
    modifies node`next, node`prev, head`next, First(xs + [head])`prev
    ensures IsRing([head] + [node] + xs)
  {
    Pieces([head], xs);
    AddBetween(node, head, head.next, [head], xs);
  }

  /** list_add_tail: right before the head. */
  method AddTail<T>(node: Link<T>, head: Link<T>, ghost xs: seq<Link<T>>)
    requires IsRing([head] + xs) && node != head && node !in xs
    modifies node`next, node`prev, head`prev, Last([head] + xs)`next
    ensures IsRing([head] + xs + [node])
  {
    ghost var s := [head] + xs;
    assert s + [] == s;
    Pieces(s, []);
    AddBetween(node, head.prev, head, s, []);
    assert s + [node] + [] == s + [node];
  }

  /** __list_del: what is between the end of `a` and the start of `b` (going around)
      drops out and keeps its own pointers. */
  method Unlink<T>(prev: Link<T>, next: Link<T>, ghost a: seq<Link<T>>, ghost node: Link<T>, ghost b: seq<Link<T>>)
    requires IsRing(a + [node] + b) && a != [] && prev == Last(a) && next == First(b + a)
    modifies prev`next, next`prev
    ensures IsRing(a + b)
  {
    Pieces(a + [node], b);
    PathSplit(a, [node]);
    DistinctSplit(a, [node]);
    next.prev := prev;
    prev.next := next;
    Assemble(a, b);
  }

  /** list_del: the entry is left with null pointers. */
  method Del<T>(entry: Link<T>, ghost a: seq<Link<T>>, ghost b: seq<Link<T>>)
    requires IsRing(a + [entry] + b) && a != []
    modifies entry`next, entry`prev, Last(a)`next, First(b + a)`prev
    ensures IsRing(a + b) && entry.next == null && entry.prev == null
  {
    Pieces(a + [entry], b);
    PathSplit(a, [entry]);
    DistinctSplit(a, [entry]);
    assert entry in a + [entry] && First(b + (a + [entry])) == First(b + a);
    Unlink(entry.prev, entry.next, a, entry, b);
    entry.next := null;
    entry.prev := null;
  }

  /** list_del_init: the entry becomes a ring of its own. */
  method DelInit<T>(entry: Link<T>, ghost a: seq<Link<T>>, ghost b: seq<Link<T>>)
    requires IsRing(a + [entry] + b) && a != []
    modifies entry`next, entry`prev, Last(a)`next, First(b + a)`prev
    ensures IsRing(a + b) && IsRing([entry])
  {
    Pieces(a + [entry], b);
    PathSplit(a, [entry]);
    DistinctSplit(a, [entry]);
    assert entry in a + [entry] && First(b + (a + [entry])) == First(b + a);
    Unlink(entry.prev, entry.next, a, entry, b);
    entry.next, entry.prev := entry, entry;
  }

  /** list_move: the entry leaves its ring and goes right behind `head`, which heads
      another ring or, when `same`, the entry's own. */
  method Move<T>(entry: Link<T>, head: Link<T>, ghost a: seq<Link<T>>, ghost b: seq<Link<T>>, ghost xs: seq<Link<T>>,
      ghost same: bool)
    requires IsRing(a + [entry] + b) && a != []
    requires same ==> [head] + xs == a + b
    requires !same ==> IsRing([head] + xs) && forall x | x in a + [entry] + b :: x !in [head] + xs
    modifies entry`next, entry`prev, Last(a)`next, First(b + a)`prev, head`next, First(xs + [head])`prev
    ensures !same ==> IsRing(a + b)
    ensures IsRing([head] + [entry] + xs)
  {
    hide IsRing;
    Pieces(a + [entry], b);
    PathSplit(a, [entry]);
    DistinctSplit(a, [entry]);
    assert entry in a + [entry] && First(b + (a + [entry])) == First(b + a);
    assert forall x | x in a || x in b || x == entry :: x in a + [entry] + b;
    assert head in [head] + xs && forall x | x in xs :: x in [head] + xs;
    assert same ==> forall x | x in [head] + xs :: x in a || x in b;
    Unlink(entry.prev, entry.next, a, entry, b);
    Add(entry, head, xs);
  }

  /** __list_splice and list_splice: the entries of the ring headed by `list` go right
      behind `head`; `list` itself keeps pointing at them. */
  method Splice<T>(list: Link<T>, head: Link<T>, ghost xs: seq<Link<T>>, ghost ys: seq<Link<T>>)
    requires IsRing([list] + xs) && IsRing([head] + ys) && forall x | x in [list] + xs :: x !in [head] + ys
    modifies head`next, First(xs + [list])`prev, Last([list] + xs)`next, First(ys + [head])`prev
    ensures IsRing([head] + xs + ys)
    ensures list.next == old(list.next) && list.prev == old(list.prev)
  {
    Pieces([list], xs);
    Pieces([head], ys);
    assert forall x | x in xs || x == list :: x in [list] + xs;
    assert forall x | x in ys || x == head :: x in [head] + ys;
    if list.next != list {
      var first, last, at := list.next, list.prev, head.next;
      first.prev := head;
      head.next := first;
      last.next := at;
      at.prev := last;
      PathJoin([head], xs);
      DistinctJoin([head], xs);
      Assemble([head] + xs, ys);
    } else {
      assert xs == [];
      assert [head] + xs + ys == [head] + ys;
    }
  }

  /** list_splice_init: the emptied head becomes a ring of its own. */
  method SpliceInit<T>(list: Link<T>, head: Link<T>, ghost xs: seq<Link<T>>, ghost ys: seq<Link<T>>)
    requires IsRing([list] + xs) && IsRing([head] + ys) && forall x | x in [list] + xs :: x !in [head] + ys
    modifies head`next, First(xs + [list])`prev, Last([list] + xs)`next, First(ys + [head])`prev, list`next, list`prev
    ensures IsRing([head] + xs + ys) && IsRing([list])
  {
    Pieces([list], xs);
    assert list in [list] + xs;
    if list.next != list {
      Splice(list, head, xs, ys);
      list.next, list.prev := list, list;
    } else {
      assert xs == [];
      assert [head] + xs + ys == [head] + ys && [list] + xs == [list];
    }
  }

  /** list_for_each. */
  method Visit<T>(head: Link<T>, ghost xs: seq<Link<T>>) returns (seen: seq<Link<T>>)
    requires IsRing([head] + xs)
    ensures seen == xs
  {
    Pieces([head], xs);
    seen := [];
    var pos := head.next;
    while pos != head
      invariant |seen| <= |xs| && seen == xs[..|seen|]
      invariant pos == if |seen| < |xs| then xs[|seen|] else head
      decreases |xs| - |seen|
    {
      assert |seen| + 1 < |xs| ==> Linked(xs[|seen|], xs[|seen|+1]);
      seen := seen + [pos];
      pos := pos.next;
    }
  }

  lemma Front<T>(head: Link<T>, xs: seq<Link<T>>)
    requires IsRing([head] + xs)
    ensures head.next == First(xs + [head]) && head !in xs
    ensures xs != [] ==> xs[0].next == First(xs[1..] + [head]) && [head] + xs == [head] + [xs[0]] + xs[1..]
  {
    Pieces([head], xs);
    if xs != [] {
      assert [head] + xs == [head] + [xs[0]] + xs[1..];
      Pieces([head] + [xs[0]], xs[1..]);
    }
  }

  lemma DrainNext<T>(head: Link<T>, rest: seq<Link<T>>, xs: seq<Link<T>>)
    requires rest != [] && forall x | x in rest :: x in xs
    ensures rest[0] in xs && Last([head]) == head && forall x | x in rest[1..] :: x in xs
    ensures First(rest[1..] + [head]) == head || First(rest[1..] + [head]) in xs
  {
  }

  /** list_for_each_safe with list_del in the body: every entry once, in order, and an
      empty ring at the end. */
  method Drain<T>(head: Link<T>, ghost xs: seq<Link<T>>) returns (seen: seq<Link<T>>)
    requires IsRing([head] + xs)
    modifies head`next, head`prev, xs
    ensures seen == xs && IsRing([head])
  {
    hide IsRing;
    seen := [];
    ghost var rest := xs;
    Front(head, rest);
    var pos: Link<T> := head.next;
    var n: Link<T> := pos.next;
    while pos != head
      invariant seen + rest == xs && IsRing([head] + rest) && forall x | x in rest :: x in xs
      invariant pos == First(rest + [head]) && (rest != [] ==> n == First(rest[1..] + [head]))
      decreases |rest|
    {
      Front(head, rest);
      DrainNext(head, rest, xs);
      Del(pos, [head], rest[1..]);
      seen := seen + [pos];
      rest := rest[1..];
      Front(head, rest);
      pos := n;
      n := pos.next;
    }
    Front(head, rest);
    assert [head] + rest == [head];
  }
}
