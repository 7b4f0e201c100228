/** What every interleaving keeps, and why the steps of readers and of the free
    queue keep it. */
module RcuReaders {
  import opened Seqs
  import opened RcuModel

  // ----- the invariant -----

  /** Each chain holds published, still linked entries in the order of their ranks, all of
      them on full_list, and the next pointers a reader follows spell it out. */
  ghost predicate ChainOk(s: Sys, d: Dir) {
    && var c := s.chain.At(d);
    && s.first.At(d) == LinkAt(c, 0)
    && (forall i | 0 <= i < |c| ::
          && c[i] in s.mem && c[i] in s.full
          && var e := s.mem[c[i]];
          && e.place == Chain(d) && 0 < e.pub < s.clock && e.gone == 0 && e.rank > 0.0 && e.next == LinkAt(c, i + 1))
    && (forall i, j | 0 <= i < j < |c| :: s.mem[c[i]].rank < s.mem[c[j]].rank)
  }

  /** An unlinked entry points forward: to the head, to a linked entry, or to an
      entry unlinked later; it skips nothing that was linked when it left and still is. */
  ghost predicate GoneOk(s: Sys, x: Addr)
    requires x in s.mem
  {
    var e := s.mem[x];
    e.gone > 0 ==>
      && e.place.Chain? && 0 < e.pub < e.gone < s.clock && e.rank > 0.0
      && (e.next.To? ==>
            && e.next.a in s.mem
            && var y := s.mem[e.next.a];
            && y.place == e.place && 0 < y.pub < e.gone && e.rank < y.rank
            && (y.gone == 0 || e.gone < y.gone))
      && (forall z | z in s.chain.At(e.place.d) && z in s.mem && s.mem[z].pub < e.gone && e.rank < s.mem[z].rank ::
            e.next.To? && e.next.a in s.mem && (e.next.a == z || s.mem[e.next.a].rank < s.mem[z].rank))
  }

  /** An entry that was not unlinked is on its chain, except while it is being added. */
  ghost predicate LiveOk(s: Sys, x: Addr)
    requires x in s.mem
  {
    var e := s.mem[x];
    && (e.place.Nowhere? ==> e.pub == 0 && e.gone == 0)
    && (e.place.Chain? && e.gone == 0 ==> x in s.chain.At(e.place.d) || (s.writer == Adding(x) && e.pub == 0))
  }

  /** Off every list: unlinked from its chain, or never on one. */
  predicate Detached(s: Sys, x: Addr) {
    x in s.mem && x !in s.full && (s.mem[x].gone > 0 || s.mem[x].place.Nowhere?)
  }

  ghost predicate FullOk(s: Sys) {
    && (forall x | x in s.full :: x in s.mem)
    && (forall i, j | 0 <= i < j < |s.full| && s.full[i] in s.mem && s.full[j] in s.mem ::
          s.full[i] != s.full[j] && s.mem[s.full[i]].key != s.mem[s.full[j]].key)
  }

  /** Every reader old enough to see a queued entry is one the queue waits for. */
  ghost predicate PendingOk(s: Sys) {
    forall x | x in s.pending ::
      && Detached(s, x) && x !in s.freed
      && forall t | t in s.readers && Inside(s.readers[t].r) && s.readers[t].r.start <= s.mem[x].gone ::
           t in s.pending[x]
  }

  ghost predicate FreedOk(s: Sys) {
    forall x | x in s.freed ::
      && Detached(s, x)
      && forall t | t in s.readers && Inside(s.readers[t].r) :: s.mem[x].gone < s.readers[t].r.start
  }

  ghost predicate WriterOk(s: Sys) {
    match s.writer
    case Adding(a) => a in s.mem && a in s.full && s.mem[a].place.Chain? && s.mem[a].pub == s.mem[a].gone == 0
    case DelOutput(k) => NoMatch(s, s.chain.input, k)
    case DelFull(k) => NoMatch(s, s.chain.input, k) && NoMatch(s, s.chain.output, k)
    case FlushOutput => s.chain.input == []
    case FlushFull => s.chain.input == s.chain.output == []
    case _ => true
  }

  /** What a traversal has seen: entries of its chain in the order of their ranks. */
  ghost predicate VisitedOk(s: Sys, d: Dir, visited: seq<Addr>) {
    && (forall i | 0 <= i < |visited| ::
          visited[i] in s.mem && s.mem[visited[i]].place == Chain(d) && s.mem[visited[i]].pub > 0
          && s.mem[visited[i]].rank > 0.0)
    && (forall i, j | 0 <= i < j < |visited| :: s.mem[visited[i]].rank < s.mem[visited[j]].rank)
  }

  /** Everything published before `start`, still linked and ranked at most `upto` is among
      `visited`. */
  ghost predicate Covered(s: Sys, d: Dir, start: nat, upto: real, visited: seq<Addr>) {
    forall z | z in s.chain.At(d) && z in s.mem && s.mem[z].pub < start && s.mem[z].rank <= upto :: z in visited
  }

  /** Everything published before `start` and still linked is among `visited`. */
  ghost predicate AllCovered(s: Sys, d: Dir, start: nat, visited: seq<Addr>) {
    forall z | z in s.chain.At(d) && z in s.mem && s.mem[z].pub < start :: z in visited
  }

  ghost predicate ReaderOk(s: Sys, th: Thread) {
    var r := th.r;
    && th.depth == (if Inside(r) then 1 else 0)
    && (r.Outside? || r.start < s.clock)
    && match r
       case On(d, start, visited) =>
         && visited != [] && VisitedOk(s, d, visited)
         && (s.mem[Here(r)].gone == 0 || start < s.mem[Here(r)].gone)
         && Covered(s, d, start, s.mem[Here(r)].rank, visited)
       case AtHead(d, start, visited) =>
         VisitedOk(s, d, visited) && AllCovered(s, d, start, visited)
       case Left(d, start, visited, decided) =>
         && VisitedOk(s, d, visited)
         && (decided ==> visited != [] && Covered(s, d, start, s.mem[visited[|visited|-1]].rank, visited))
         && (!decided ==> AllCovered(s, d, start, visited))
       case _ => true
  }

  ghost predicate EntriesOk(s: Sys) {
    forall x | x in s.mem :: GoneOk(s, x) && LiveOk(s, x)
  }

  /** The writer's side: both chains, every entry, full_list and the pending message agree. */
  ghost predicate ListsOk(s: Sys) {
    && s.clock > 0
    && ChainOk(s, Input) && ChainOk(s, Output)
    && EntriesOk(s) && FullOk(s) && WriterOk(s)
  }

  ghost predicate ReadersOk(s: Sys) {
    forall t | t in s.readers :: ReaderOk(s, s.readers[t])
  }

  ghost predicate Inv(s: Sys) {
    ListsOk(s) && PendingOk(s) && FreedOk(s) && ReadersOk(s)
  }

  lemma InitInv(s: Sys)
    requires Init(s)
    ensures Inv(s)
  {
  }

  // ----- steps of readers and of the free queue -----

  /** Nothing a chain walk can see differs between `s` and `s'`. */
  ghost predicate SameLists(s: Sys, s': Sys) {
    && s'.clock >= s.clock && s'.mem == s.mem && s'.first == s.first && s'.chain == s.chain
    && s'.full == s.full && s'.writer == s.writer
  }

  /** A reader may stand on `a`: it was published, and was linked when the reader began. */
  ghost predicate Visible(s: Sys, d: Dir, start: nat, a: Addr) {
    && a in s.mem && s.mem[a].place == Chain(d) && s.mem[a].pub > 0 && s.mem[a].rank > 0.0
    && (s.mem[a].gone == 0 || start < s.mem[a].gone)
  }

  /** Following `l` from rank `after` on skips no entry published before `start` that is
      still linked. */
  ghost predicate SkipsNothing(s: Sys, d: Dir, start: nat, after: real, l: Link) {
    forall z | z in s.chain.At(d) && z in s.mem && s.mem[z].pub < start && after < s.mem[z].rank ::
      l.To? && l.a in s.mem && (l.a == z || s.mem[l.a].rank < s.mem[z].rank)
  }

  lemma LinkedNext(s: Sys, d: Dir, start: nat, a: Addr)
    requires ChainOk(s, d) && a in s.chain.At(d) && a in s.mem
    ensures s.mem[a].next.To? ==> Visible(s, d, start, s.mem[a].next.a) && s.mem[a].rank < s.mem[s.mem[a].next.a].rank
    ensures SkipsNothing(s, d, start, s.mem[a].rank, s.mem[a].next)
  {
    var c := s.chain.At(d);
    var i :| 0 <= i < |c| && c[i] == a;
    forall z | z in c && z in s.mem && s.mem[z].pub < start && s.mem[a].rank < s.mem[z].rank
      ensures i + 1 < |c| && (c[i+1] == z || s.mem[c[i+1]].rank < s.mem[z].rank)
    {
      var j :| 0 <= j < |c| && c[j] == z;
    }
  }

  lemma GoneNext(s: Sys, d: Dir, start: nat, a: Addr)
    requires ChainOk(s, d) && Visible(s, d, start, a) && GoneOk(s, a) && s.mem[a].gone > 0
    ensures s.mem[a].next.To? ==> Visible(s, d, start, s.mem[a].next.a) && s.mem[a].rank < s.mem[s.mem[a].next.a].rank
    ensures SkipsNothing(s, d, start, s.mem[a].rank, s.mem[a].next)
  {
  }

  lemma FirstNext(s: Sys, d: Dir, start: nat)
    requires ChainOk(s, d)
    ensures s.first.At(d).To? ==> Visible(s, d, start, s.first.At(d).a)
    ensures SkipsNothing(s, d, start, 0.0, s.first.At(d))
  {
    var c := s.chain.At(d);
    forall z | z in c && z in s.mem && s.mem[z].pub < start
      ensures c != [] && (c[0] == z || s.mem[c[0]].rank < s.mem[z].rank)
    {
      var j :| 0 <= j < |c| && c[j] == z;
    }
  }

  /** Landing where `l` points keeps the visited list in order and complete. */
  lemma ArriveOk(s: Sys, d: Dir, start: nat, after: real, visited: seq<Addr>, l: Link)
    requires VisitedOk(s, d, visited) && Covered(s, d, start, after, visited)
    requires if visited == [] then after == 0.0 else after == s.mem[visited[|visited|-1]].rank
    requires l.To? ==> Visible(s, d, start, l.a) && after < s.mem[l.a].rank
    requires SkipsNothing(s, d, start, after, l)
    ensures l.To? ==> VisitedOk(s, d, visited + [l.a]) && Covered(s, d, start, s.mem[l.a].rank, visited + [l.a])
    ensures l.Head? ==> AllCovered(s, d, start, visited)
  {
    if l.To? {
      var v := visited + [l.a];
      forall i, j | 0 <= i < j < |v| ensures s.mem[v[i]].rank < s.mem[v[j]].rank {
        if j == |visited| { assert visited[i] == v[i]; }
      }
    }
  }

  lemma LoadFirst(s: Sys, th: Thread)
    requires ReaderOk(s, th) && th.r.Before? && ChainOk(s, th.r.d)
    ensures ReaderOk(s, th.(r := AfterLoad(s, th.r)))
  {
    var d, start := th.r.d, th.r.start;
    FirstNext(s, d, start);
    assert Covered(s, d, start, 0.0, []) by {
      forall z | z in s.chain.At(d) && z in s.mem ensures s.mem[z].rank > 0.0 {}
    }
    ArriveOk(s, d, start, 0.0, [], s.first.At(d));
  }

  lemma VisibleNext(s: Sys, d: Dir, start: nat, a: Addr)
    requires ChainOk(s, d) && Visible(s, d, start, a) && GoneOk(s, a) && LiveOk(s, a)
    ensures s.mem[a].next.To? ==> Visible(s, d, start, s.mem[a].next.a) && s.mem[a].rank < s.mem[s.mem[a].next.a].rank
    ensures SkipsNothing(s, d, start, s.mem[a].rank, s.mem[a].next)
  {
    if s.mem[a].gone > 0 {
      GoneNext(s, d, start, a);
    } else {
      LinkedNext(s, d, start, a);
    }
  }

  lemma LoadNext(s: Sys, th: Thread)
    requires ReaderOk(s, th) && th.r.On? && ChainOk(s, th.r.d)
    requires GoneOk(s, Here(th.r)) && LiveOk(s, Here(th.r))
    ensures ReaderOk(s, th.(r := AfterLoad(s, th.r)))
  {
    var a := Here(th.r);
    VisibleNext(s, th.r.d, th.r.start, a);
    ArriveOk(s, th.r.d, th.r.start, s.mem[a].rank, th.r.visited, s.mem[a].next);
  }

  lemma SameListsOk(s: Sys, s': Sys)
    requires SameLists(s, s') && ListsOk(s)
    ensures ListsOk(s')
  {
    forall x | x in s'.mem ensures GoneOk(s', x) && LiveOk(s', x) {}
  }

  /** All traversals but `t` are as before. */
  lemma SameListsReaders(s: Sys, s': Sys, t: Tid)
    requires SameLists(s, s') && ReadersOk(s) && s'.readers.Keys == s.readers.Keys
    requires forall u | u in s.readers && u != t :: s'.readers[u] == s.readers[u]
    requires t in s.readers ==> ReaderOk(s, s'.readers[t]) || ReaderOk(s', s'.readers[t])
    ensures ReadersOk(s')
  {
    forall u | u in s'.readers ensures ReaderOk(s', s'.readers[u]) {}
  }

  lemma LockGrace(s: Sys, s': Sys, t: Tid, d: Dir)
    requires PendingOk(s) && FreedOk(s) && EntriesOk(s) && s.clock > 0 && Lock(s, s', t, d)
    ensures PendingOk(s') && FreedOk(s')
  {
    forall x | x in s.mem ensures s.mem[x].gone < s.clock { assert GoneOk(s, x); }
  }

  lemma LockInv(s: Sys, s': Sys, t: Tid, d: Dir)
    requires Inv(s) && Lock(s, s', t, d)
    ensures Inv(s')
  {
    LockGrace(s, s', t, d);
    hide PendingOk, FreedOk;
    SameListsOk(s, s');
    SameListsReaders(s, s', t);
  }

  /** A traversal that goes on, or leaves, takes nothing from what the free queue waits for. */
  lemma GraceKept(s: Sys, s': Sys, t: Tid)
    requires SameLists(s, s') && PendingOk(s) && FreedOk(s)
    requires s'.freed == s.freed && s'.pending.Keys == s.pending.Keys && s'.readers.Keys == s.readers.Keys
    requires forall u | u in s.readers && u != t :: s'.readers[u] == s.readers[u]
    requires forall x | x in s.pending :: s.pending[x] - {t} <= s'.pending[x]
    requires t in s.readers && Inside(s.readers[t].r)
    requires Inside(s'.readers[t].r) ==> s'.readers[t].r.start == s.readers[t].r.start && s'.pending == s.pending
    ensures PendingOk(s') && FreedOk(s')
  {
  }

  lemma LoadReader(s: Sys, th: Thread)
    requires CanLoad(s, th.r) && ChainOk(s, th.r.d) && ReaderOk(s, th)
    requires th.r.On? ==> GoneOk(s, Here(th.r)) && LiveOk(s, Here(th.r))
    ensures ReaderOk(s, th.(r := AfterLoad(s, th.r)))
  {
    match th.r
    case Before(_, _) => LoadFirst(s, th);
    case On(_, _, _) => LoadNext(s, th);
  }

  lemma LoadReaders(s: Sys, s': Sys, t: Tid)
    requires ListsOk(s) && ReadersOk(s) && Load(s, s', t)
    ensures ReadersOk(s')
  {
    var th := s.readers[t];
    assert ChainOk(s, th.r.d) by { assert th.r.d == Input || th.r.d == Output; }
    assert th.r.On? ==> GoneOk(s, Here(th.r)) && LiveOk(s, Here(th.r));
    LoadReader(s, th);
    SameListsReaders(s, s', t);
  }

  lemma LoadInv(s: Sys, s': Sys, t: Tid)
    requires Inv(s) && Load(s, s', t)
    ensures Inv(s')
  {
    SameListsOk(s, s');
    LoadReaders(s, s', t);
    GraceKept(s, s', t);
  }

  lemma UnlockReaders(s: Sys, s': Sys, t: Tid)
    requires ReadersOk(s) && Unlock(s, s', t)
    ensures ReadersOk(s')
  {
    assert ReaderOk(s, s.readers[t]);
    hide VisitedOk, Covered, AllCovered;
    assert ReaderOk(s', s'.readers[t]);
    hide ReaderOk;
    SameListsReaders(s, s', t);
  }

  lemma UnlockInv(s: Sys, s': Sys, t: Tid)
    requires Inv(s) && Unlock(s, s', t)
    ensures Inv(s')
  {
    UnlockReaders(s, s', t);
    GraceKept(s, s', t);
    hide PendingOk, FreedOk, ReadersOk;
    SameListsOk(s, s');
  }

  /** Once nobody is waited for, nobody inside is old enough to see the entry. */
  lemma FreeGrace(s: Sys, s': Sys, x: Addr)
    requires PendingOk(s) && FreedOk(s) && FreeStep(s, s', x) && ReadersOk(s)
    ensures PendingOk(s') && FreedOk(s')
  {
    hide ReadersOk;
  }

  lemma FreeInv(s: Sys, s': Sys, x: Addr)
    requires Inv(s) && FreeStep(s, s', x)
    ensures Inv(s')
  {
    FreeGrace(s, s', x);
    hide PendingOk, FreedOk;
    SameListsOk(s, s');
    SameListsReaders(s, s', 0);
  }
}
