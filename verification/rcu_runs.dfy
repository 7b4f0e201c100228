/** Whole interleavings: no traversal meets freed memory, and each sees what it
    should, in chain order. */
module RcuRuns {
  import opened Seqs
  import opened RcuModel
  import opened RcuReaders
  import opened RcuWriter

  // ----- runs -----

  ghost predicate Run(tr: seq<Sys>) {
    && tr != [] && Init(tr[0])
    && forall i | 0 <= i < |tr| - 1 :: Next(tr[i], tr[i+1])
  }

  lemma {:induction false} RunInv(tr: seq<Sys>, i: nat)
    requires Run(tr) && i < |tr|
    ensures Inv(tr[i])
  {
    hide Inv, Init, Next;
    if i == 0 {
      InitInv(tr[0]);
    } else {
      RunInv(tr, i - 1);
      assert Next(tr[i-1], tr[i-1+1]);
      NextInv(tr[i-1], tr[i]);
    }
  }

  lemma WriterKeepsPub(s: Sys, s': Sys, x: Addr)
    requires ListsOk(s) && WriterStep(s, s') && x in s.mem && s.mem[x].pub > 0
    ensures x in s'.mem && s'.mem[x].pub == s.mem[x].pub
  {
    if a, k, p :| StartAdd(s, s', a, k, p) {
    } else if i: nat, r: real :| Publish(s, s', i, r) {
      PublishKeepsPub(s, s', i, r, x);
    } else if w :| Accept(s, s', w) {
    } else if i: nat :| DeleteStep(s, s', i) {
      hide DeleteStep;
      DeleteKeepsPub(s, s', i, x);
    }
  }

  lemma PublishKeepsPub(s: Sys, s': Sys, i: nat, r: real, x: Addr)
    requires ListsOk(s) && Publish(s, s', i, r) && x in s.mem && s.mem[x].pub > 0
    ensures x in s'.mem && s'.mem[x].pub == s.mem[x].pub
  {
    PublishMem(s, s', s.mem[s.writer.a].place.d, i, r);
  }

  /** A published entry keeps its date. */
  lemma NextKeepsPub(s: Sys, s': Sys, x: Addr)
    requires Inv(s) && Next(s, s') && x in s.mem && s.mem[x].pub > 0
    ensures x in s'.mem && s'.mem[x].pub == s.mem[x].pub
  {
    hide WriterStep, ListsOk, PendingOk, FreedOk, ReadersOk;
    if WriterStep(s, s') {
      WriterKeepsPub(s, s', x);
    }
  }

  lemma DeleteKeepsPub(s: Sys, s': Sys, i: nat, x: Addr)
    requires ChainOk(s, Input) && ChainOk(s, Output) && DeleteStep(s, s', i) && x in s.mem
    ensures x in s'.mem && s'.mem[x].pub == s.mem[x].pub
  {
    match s.writer
    case DelInput(k) =>
      if Unlink(s, s', Input, i, DelOutput(k)) { UnlinkMem(s, s', Input, i, DelOutput(k)); }
    case DelOutput(k) =>
      if Unlink(s, s', Output, i, DelFull(k)) { UnlinkMem(s, s', Output, i, DelFull(k)); }
    case _ =>
  }

  lemma WriterLeavesReaders(s: Sys, s': Sys)
    requires WriterStep(s, s')
    ensures s'.readers == s.readers
  {
  }

  /** No step moves a traversal's start while it stays inside its section. */
  lemma NextKeepsStart(s: Sys, s': Sys, t: Tid)
    requires Inv(s) && Next(s, s') && t in s.readers && Inside(s.readers[t].r)
    ensures t in s'.readers && !s'.readers[t].r.Outside?
    ensures s'.readers[t].r.d == s.readers[t].r.d && s'.readers[t].r.start == s.readers[t].r.start
  {
    hide ListsOk, PendingOk, FreedOk, ReadersOk, WriterStep;
    if WriterStep(s, s') {
      WriterLeavesReaders(s, s');
    }
  }

  lemma VisibleNotFreed(s: Sys, t: Tid, a: Addr)
    requires FreedOk(s) && t in s.readers && Inside(s.readers[t].r)
    requires Visible(s, s.readers[t].r.d, s.readers[t].r.start, a)
    ensures a !in s.freed
  {
  }

  lemma OnAllocated(s: Sys, t: Tid)
    requires FreedOk(s) && EntriesOk(s) && t in s.readers && s.readers[t].r.On?
    requires ChainOk(s, s.readers[t].r.d) && ReaderOk(s, s.readers[t])
    ensures var r := s.readers[t].r;
      && Here(r) in s.mem && Here(r) !in s.freed
      && (s.mem[Here(r)].next.To? ==> s.mem[Here(r)].next.a in s.mem && s.mem[Here(r)].next.a !in s.freed)
  {
    hide FreedOk;
    var r := s.readers[t].r;
    assert Visible(s, r.d, r.start, Here(r));
    hide ReaderOk;
    VisibleNotFreed(s, t, Here(r));
    VisibleNext(s, r.d, r.start, Here(r));
    if s.mem[Here(r)].next.To? { VisibleNotFreed(s, t, s.mem[Here(r)].next.a); }
  }

  lemma ReaderFacts(s: Sys, t: Tid)
    requires Inv(s) && t in s.readers
    ensures FreedOk(s) && EntriesOk(s) && ReaderOk(s, s.readers[t])
    ensures ChainOk(s, Input) && ChainOk(s, Output)
  {
    hide ChainOk, EntriesOk, FreedOk, PendingOk, FullOk, WriterOk, ReaderOk;
  }

  /** Memory safety: in every interleaving, the entry a traversal stands on is allocated
      and not freed, and so is the one its next load takes it to. */
  lemma NeverOnFreed(tr: seq<Sys>, i: nat, t: Tid)
    requires Run(tr) && i < |tr| && t in tr[i].readers && tr[i].readers[t].r.On?
    ensures var s := tr[i]; var r := s.readers[t].r;
      && r.visited != [] && Here(r) in s.mem && Here(r) !in s.freed
      && (s.mem[Here(r)].next.To? ==> s.mem[Here(r)].next.a in s.mem && s.mem[Here(r)].next.a !in s.freed)
  {
    hide Run, Inv, ChainOk, EntriesOk, FreedOk;
    RunInv(tr, i);
    ReaderFacts(tr[i], t);
    assert tr[i].readers[t].r.visited != [];
    OnAllocated(tr[i], t);
  }

  /** Only what is on neither chain nor full_list is ever queued for freeing or freed. */
  lemma QueuedIsUnlinked(tr: seq<Sys>, i: nat, x: Addr)
    requires Run(tr) && i < |tr| && (x in tr[i].pending || x in tr[i].freed)
    ensures x !in tr[i].full && x !in tr[i].chain.input && x !in tr[i].chain.output
  {
    RunInv(tr, i);
  }

  /** The read lock is taken and released once per traversal: nesting is 1 inside, 0 outside. */
  lemma LockBalanced(tr: seq<Sys>, i: nat, t: Tid)
    requires Run(tr) && i < |tr| && t in tr[i].readers
    ensures tr[i].readers[t].depth == if Inside(tr[i].readers[t].r) then 1 else 0
  {
    RunInv(tr, i);
  }

  /** Traversal `t` takes the lock at step `i` and has left by state `j`. */
  ghost predicate Walk(tr: seq<Sys>, i: nat, j: nat, t: Tid, d: Dir) {
    && Run(tr) && i < j < |tr| && Lock(tr[i], tr[i+1], t, d)
    && (forall k | i < k < j :: t in tr[k].readers && Inside(tr[k].readers[t].r))
    && t in tr[j].readers && tr[j].readers[t].r.Left?
  }

  lemma {:induction false} WalkStart(tr: seq<Sys>, i: nat, j: nat, t: Tid, d: Dir, k: nat)
    requires Walk(tr, i, j, t, d) && i < k <= j
    ensures t in tr[k].readers && !tr[k].readers[t].r.Outside?
    ensures tr[k].readers[t].r.d == d && tr[k].readers[t].r.start == tr[i].clock
  {
    hide Inv, Next;
    if k == i + 1 {
    } else {
      WalkStart(tr, i, j, t, d, k - 1);
      RunInv(tr, k - 1);
      assert Next(tr[k-1], tr[k-1+1]);
      NextKeepsStart(tr[k-1], tr[k], t);
    }
  }

  lemma {:induction false} PubConstant(tr: seq<Sys>, i: nat, k: nat, z: Addr)
    requires Run(tr) && i <= k < |tr| && z in tr[i].mem && tr[i].mem[z].pub > 0
    ensures z in tr[k].mem && tr[k].mem[z].pub == tr[i].mem[z].pub
  {
    hide Inv, Next;
    if k == i {
    } else {
      PubConstant(tr, i, k - 1, z);
      RunInv(tr, k - 1);
      assert Next(tr[k-1], tr[k-1+1]);
      NextKeepsPub(tr[k-1], tr[k], z);
    }
  }

  lemma ChainRankOrder(s: Sys, d: Dir, x: nat, y: nat)
    requires ChainOk(s, d) && x < |s.chain.At(d)| && y < |s.chain.At(d)|
    requires s.chain.At(d)[x] in s.mem && s.chain.At(d)[y] in s.mem
    requires s.mem[s.chain.At(d)[x]].rank < s.mem[s.chain.At(d)[y]].rank
    ensures x < y
  {
  }

  /** What a traversal that has left missed is behind where it was decided. */
  lemma SeenOrBehind(s: Sys, th: Thread, z: Addr)
    requires th.r.Left? && ChainOk(s, th.r.d) && ReaderOk(s, th)
    requires z in s.chain.At(th.r.d) && z in s.mem && s.mem[z].pub < th.r.start
    ensures var r := th.r; var c := s.chain.At(r.d);
      && (!r.decided ==> z in r.visited)
      && (r.decided ==>
            && r.visited != [] && r.visited[|r.visited|-1] in s.mem
            && (z in r.visited
                || (s.mem[r.visited[|r.visited|-1]].rank < s.mem[z].rank
                    && forall x: nat, y: nat |
                         x < |c| && y < |c| && c[x] == r.visited[|r.visited|-1] && c[y] == z :: x < y)))
  {
    var r, c := th.r, s.chain.At(th.r.d);
    assert r.decided ==> Covered(s, r.d, r.start, s.mem[r.visited[|r.visited|-1]].rank, r.visited);
    hide ReaderOk, VisitedOk;
    if r.decided && z !in r.visited {
      hide ChainOk;
      forall x: nat, y: nat | x < |c| && y < |c| && c[x] == r.visited[|r.visited|-1] && c[y] == z ensures x < y {
        ChainRankOrder(s, r.d, x, y);
      }
    }
  }

  lemma WalkEnds(tr: seq<Sys>, i: nat, j: nat, t: Tid, d: Dir, z: Addr)
    requires Walk(tr, i, j, t, d) && z in tr[i].chain.At(d)
    ensures t in tr[j].readers && ChainOk(tr[j], d) && ReaderOk(tr[j], tr[j].readers[t])
    ensures tr[j].readers[t].r.Left? && tr[j].readers[t].r.d == d
    ensures z in tr[j].mem && tr[j].mem[z].pub < tr[j].readers[t].r.start
  {
    RunInv(tr, i);
    RunInv(tr, j);
    assert d == Input || d == Output;
    assert ChainOk(tr[i], d) && z in tr[i].mem && 0 < tr[i].mem[z].pub < tr[i].clock;
    ReaderFacts(tr[j], t);
    hide Inv, ChainOk, ReaderOk, Next;
    PubConstant(tr, i, j, z);
    WalkStart(tr, i, j, t, d, j);
  }

  /** Completeness: a traversal that ran off the end saw every rule that was linked when
      it took the lock and still is; one that was decided saw every such rule ranked no
      later than the deciding one: those it missed stand behind that, if it is still linked. */
  lemma VisitsEveryLinked(tr: seq<Sys>, i: nat, j: nat, t: Tid, d: Dir, z: Addr)
    requires Walk(tr, i, j, t, d) && z in tr[i].chain.At(d) && z in tr[j].chain.At(d)
    ensures var r := tr[j].readers[t].r; var c := tr[j].chain.At(d);
      && z in tr[j].mem
      && (!r.decided ==> z in r.visited)
      && (r.decided ==>
            && r.visited != [] && r.visited[|r.visited|-1] in tr[j].mem
            && (z in r.visited
                || (tr[j].mem[r.visited[|r.visited|-1]].rank < tr[j].mem[z].rank
                    && forall x: nat, y: nat |
                         x < |c| && y < |c| && c[x] == r.visited[|r.visited|-1] && c[y] == z :: x < y)))
  {
    hide Inv, Run, Next, ChainOk, ReaderOk;
    WalkEnds(tr, i, j, t, d, z);
    SeenOrBehind(tr[j], tr[j].readers[t], z);
  }

  lemma VisitedRankOrder(s: Sys, th: Thread, p: nat, q: nat)
    requires ReaderOk(s, th) && th.r.Left? && p < q < |th.r.visited|
    ensures th.r.visited[p] in s.mem && th.r.visited[q] in s.mem
    ensures s.mem[th.r.visited[p]].rank < s.mem[th.r.visited[q]].rank
  {
  }

  /** Order: no entry is seen twice, and linked entries are seen in chain order. */
  lemma VisitsInChainOrder(tr: seq<Sys>, j: nat, t: Tid, p: nat, q: nat, x: nat, y: nat)
    requires Run(tr) && j < |tr| && t in tr[j].readers && tr[j].readers[t].r.Left?
    requires var r := tr[j].readers[t].r; p < q < |r.visited|
    ensures var r := tr[j].readers[t].r; r.visited[p] != r.visited[q]
    ensures var r := tr[j].readers[t].r; var c := tr[j].chain.At(r.d);
      x < |c| && y < |c| && c[x] == r.visited[p] && c[y] == r.visited[q] ==> x < y
  {
    hide Run, Inv, EntriesOk, FreedOk, ReaderOk, ChainOk;
    RunInv(tr, j);
    ReaderFacts(tr[j], t);
    var r := tr[j].readers[t].r;
    VisitedRankOrder(tr[j], tr[j].readers[t], p, q);
    var c := tr[j].chain.At(r.d);
    if x < |c| && y < |c| && c[x] == r.visited[p] && c[y] == r.visited[q] {
      assert ChainOk(tr[j], r.d) by { assert r.d == Input || r.d == Output; }
      ChainRankOrder(tr[j], r.d, x, y);
    }
  }
}
