/** Why every step of the writer keeps the invariant. */
module RcuWriter {
  import opened Seqs
  import opened RcuModel
  import opened RcuReaders

  // ----- steps of the writer -----

  /** What any writer step does to the history a reader relies on. */
  ghost predicate Evolves(s: Sys, s': Sys) {
    && s.clock <= s'.clock && s'.readers == s.readers
    && (forall x | x in s.mem ::
          && x in s'.mem && s'.mem[x].place == s.mem[x].place
          && (s.mem[x].pub > 0 ==> s'.mem[x].pub == s.mem[x].pub && s'.mem[x].rank == s.mem[x].rank)
          && (s'.mem[x].gone == s.mem[x].gone || (s.mem[x].gone == 0 && s'.mem[x].gone == s.clock)))
    && (forall d, z | z in s'.chain.At(d) :: z in s.chain.At(d) || (z in s'.mem && s'.mem[z].pub >= s.clock))
  }

  lemma ReadersKept(s: Sys, s': Sys)
    requires Evolves(s, s') && ReadersOk(s)
    requires ChainOk(s, Input) && ChainOk(s, Output)
    ensures ReadersOk(s')
  {
    forall t | t in s'.readers ensures ReaderOk(s', s'.readers[t]) { ReaderKept(s, s', s.readers[t]); }
  }

  lemma ReaderKept(s: Sys, s': Sys, th: Thread)
    requires Evolves(s, s') && ReaderOk(s, th) && ChainOk(s, Input) && ChainOk(s, Output)
    ensures ReaderOk(s', th)
  {
    hide Covered, AllCovered, ChainOk;
    var r := th.r;
    if r.On? || r.AtHead? || r.Left? {
      VisitedKept(s, s', r.d, r.visited);
      forall upto: real | Covered(s, r.d, r.start, upto, r.visited) ensures Covered(s', r.d, r.start, upto, r.visited) {
        CoveredKept(s, s', r.d, r.start, upto, r.visited);
      }
      if AllCovered(s, r.d, r.start, r.visited) { AllCoveredKept(s, s', r.d, r.start, r.visited); }
    }
  }

  lemma VisitedKept(s: Sys, s': Sys, d: Dir, visited: seq<Addr>)
    requires Evolves(s, s') && VisitedOk(s, d, visited)
    ensures VisitedOk(s', d, visited)
  {
  }

  lemma CoveredKept(s: Sys, s': Sys, d: Dir, start: nat, upto: real, visited: seq<Addr>)
    requires Evolves(s, s') && start < s.clock && Covered(s, d, start, upto, visited)
    requires ChainOk(s, Input) && ChainOk(s, Output)
    ensures Covered(s', d, start, upto, visited)
  {
  }

  lemma AllCoveredKept(s: Sys, s': Sys, d: Dir, start: nat, visited: seq<Addr>)
    requires Evolves(s, s') && start < s.clock && AllCovered(s, d, start, visited)
    requires ChainOk(s, Input) && ChainOk(s, Output)
    ensures AllCovered(s', d, start, visited)
  {
  }

  lemma GoneKept(s: Sys, s': Sys, x: Addr)
    requires Evolves(s, s') && x in s.mem && x in s'.mem && s'.mem[x] == s.mem[x] && s.mem[x].gone > 0
    requires GoneOk(s, x) && ChainOk(s, Input) && ChainOk(s, Output)
    ensures GoneOk(s', x)
  {
  }

  /** The chain a step does not work on. */
  lemma ChainKept(s: Sys, s': Sys, d: Dir)
    requires ChainOk(s, d) && s.clock <= s'.clock
    requires s'.first.At(d) == s.first.At(d) && s'.chain.At(d) == s.chain.At(d)
    requires forall x | x in s.chain.At(d) :: x in s.mem && x in s'.mem && s'.mem[x] == s.mem[x] && x in s'.full
    ensures ChainOk(s', d)
  {
    var c := s.chain.At(d);
    assert forall i | 0 <= i < |c| :: c[i] in c;
  }

  lemma FullKept(s: Sys, s': Sys)
    requires FullOk(s) && s'.full == s.full
    requires forall x | x in s.mem :: x in s'.mem && s'.mem[x].key == s.mem[x].key
    ensures FullOk(s')
  {
  }

  lemma StartAddEntry(s: Sys, s': Sys, a: Addr, k: Key, p: Place, x: Addr)
    requires StartAdd(s, s', a, k, p) && ChainOk(s, Input) && ChainOk(s, Output)
    requires x in s.mem && GoneOk(s, x) && LiveOk(s, x)
    ensures GoneOk(s', x) && LiveOk(s', x)
  {
    if s.mem[x].gone > 0 { GoneKept(s, s', x); }
  }

  lemma StartAddLists(s: Sys, s': Sys, a: Addr, k: Key, p: Place)
    requires ListsOk(s) && StartAdd(s, s', a, k, p)
    ensures ListsOk(s')
  {
    ChainKept(s, s', Input);
    ChainKept(s, s', Output);
    StartAddFull(s, s', a, k, p);
    StartAddEntries(s, s', a, k, p);
    hide ChainOk, FullOk, EntriesOk;
  }

  lemma StartAddFull(s: Sys, s': Sys, a: Addr, k: Key, p: Place)
    requires FullOk(s) && StartAdd(s, s', a, k, p)
    ensures FullOk(s')
  {
  }

  lemma StartAddEntries(s: Sys, s': Sys, a: Addr, k: Key, p: Place)
    requires EntriesOk(s) && ChainOk(s, Input) && ChainOk(s, Output) && StartAdd(s, s', a, k, p)
    ensures EntriesOk(s')
  {
    forall x | x in s.mem ensures GoneOk(s', x) && LiveOk(s', x) {
      StartAddEntry(s, s', a, k, p, x);
    }
    hide ChainOk;
  }

  lemma StartAddInv(s: Sys, s': Sys, a: Addr, k: Key, p: Place)
    requires Inv(s) && StartAdd(s, s', a, k, p)
    ensures Inv(s')
  {
    hide ReadersOk, EntriesOk, WriterOk;
    StartAddLists(s, s', a, k, p);
    hide PendingOk, FreedOk;
    ReadersKept(s, s');
  }

  lemma ChainDistinct(s: Sys, d: Dir, i: nat, j: nat)
    requires ChainOk(s, d) && i < |s.chain.At(d)| && j < |s.chain.At(d)| && i != j
    ensures s.chain.At(d)[i] != s.chain.At(d)[j]
  {
    var c := s.chain.At(d);
    if i < j { assert s.mem[c[i]].rank < s.mem[c[j]].rank; } else { assert s.mem[c[j]].rank < s.mem[c[i]].rank; }
  }

  /** Only the new entry and its predecessor change, and only the new one is dated. */
  lemma PublishMem(s: Sys, s': Sys, d: Dir, i: nat, r: real)
    requires Publish(s, s', i, r) && WriterOk(s) && s.mem[s.writer.a].place.d == d && ChainOk(s, d)
    ensures s.writer.a !in s.chain.At(d) && i <= |s.chain.At(d)|
    ensures s'.mem.Keys == s.mem.Keys
    ensures s'.mem[s.writer.a] == s.mem[s.writer.a].(next := LinkAt(s.chain.At(d), i), pub := s.clock, rank := r)
    ensures forall x | x in s.mem && x != s.writer.a :: s'.mem[x] == s.mem[x].(next := s'.mem[x].next)
    ensures forall x | x in s.mem && x != s.writer.a && s'.mem[x] != s.mem[x] ::
              i > 0 && x == s.chain.At(d)[i-1] && s'.mem[x].next == To(s.writer.a)
    ensures i > 0 ==> s'.mem[s.chain.At(d)[i-1]].next == To(s.writer.a)
  {
  }

  lemma PublishChainEntry(s: Sys, s': Sys, d: Dir, i: nat, r: real, k: nat)
    requires Publish(s, s', i, r) && WriterOk(s) && s.mem[s.writer.a].place.d == d && ChainOk(s, d)
    requires k < |s.chain.At(d)|
    ensures s.chain.At(d)[k] in s.mem && s.chain.At(d)[k] in s.full
    ensures var x := s.chain.At(d)[k];
      s'.mem[x] == s.mem[x].(next := if k + 1 == i then To(s.writer.a) else LinkAt(s.chain.At(d), k + 1))
  {
    PublishMem(s, s', d, i, r);
    var c := s.chain.At(d);
    assert c[k] in c;
    if i > 0 && k != i - 1 { ChainDistinct(s, d, k, i - 1); }
  }

  lemma InsertAtLink(c: seq<Addr>, i: nat, a: Addr, j: nat)
    requires i <= |c| && j <= |c|
    ensures |InsertAt(c, i, a)| == |c| + 1
    ensures InsertAt(c, i, a)[j] == if j < i then c[j] else if j == i then a else c[j-1]
    ensures LinkAt(InsertAt(c, i, a), j + 1) ==
      if j + 1 < i then LinkAt(c, j + 1) else if j + 1 == i then To(a) else LinkAt(c, j)
  {
  }

  lemma PublishChainAt(s: Sys, s': Sys, d: Dir, i: nat, r: real, j: nat)
    requires s.clock > 0 && Publish(s, s', i, r) && WriterOk(s) && s.mem[s.writer.a].place.d == d && ChainOk(s, d)
    requires j <= |s.chain.At(d)|
    ensures |s'.chain.At(d)| == |s.chain.At(d)| + 1
    ensures var (x, c') := (s'.chain.At(d)[j], s'.chain.At(d));
      && x in s'.mem && x in s'.full
      && var e := s'.mem[x];
      && e.place == Chain(d) && 0 < e.pub < s'.clock && e.gone == 0 && e.rank > 0.0 && e.next == LinkAt(c', j + 1)
    ensures var c := s.chain.At(d);
      s'.mem[s'.chain.At(d)[j]].rank == if j < i then s.mem[c[j]].rank else if j == i then r else s.mem[c[j-1]].rank
  {
    var c := s.chain.At(d);
    assert i <= |c| && s'.chain.At(d) == InsertAt(c, i, s.writer.a);
    InsertAtLink(c, i, s.writer.a, j);
    hide InsertAt, LinkAt, ChainOk;
    PublishMem(s, s', d, i, r);
    if j == i {
    } else {
      PublishChainEntry(s, s', d, i, r, if j < i then j else j - 1);
    }
  }

  /** Ranks go up along the chain, around the new one too. */
  lemma RankOrder(s: Sys, d: Dir, i: nat, r: real, j: nat, k: nat)
    requires ChainOk(s, d) && i <= |s.chain.At(d)| && Between(s, s.chain.At(d), i, r) && j < k <= |s.chain.At(d)|
    ensures var c := s.chain.At(d);
      (if j < i then s.mem[c[j]].rank else if j == i then r else s.mem[c[j-1]].rank)
      < (if k < i then s.mem[c[k]].rank else if k == i then r else s.mem[c[k-1]].rank)
  {
    var c := s.chain.At(d);
    if i > 0 && j < i - 1 { assert s.mem[c[j]].rank < s.mem[c[i-1]].rank; }
    if i < k - 1 { assert s.mem[c[i]].rank < s.mem[c[k-1]].rank; }
  }

  lemma PublishChain(s: Sys, s': Sys, d: Dir, i: nat, r: real)
    requires s.clock > 0 && Publish(s, s', i, r) && WriterOk(s) && s.mem[s.writer.a].place.d == d && ChainOk(s, d)
    ensures ChainOk(s', d)
  {
    var c, c' := s.chain.At(d), s'.chain.At(d);
    assert s'.first.At(d) == LinkAt(c', 0) && Between(s, c, i, r) && i <= |c| by {
      InsertAtLink(c, i, s.writer.a, 0);
    }
    PublishChainAt(s, s', d, i, r, 0);
    hide Publish, LinkAt;
    forall j: nat | j < |c'|
      ensures c'[j] in s'.mem && c'[j] in s'.full
      ensures var e := s'.mem[c'[j]];
        e.place == Chain(d) && 0 < e.pub < s'.clock && e.gone == 0 && e.rank > 0.0 && e.next == LinkAt(c', j + 1)
    {
      PublishChainAt(s, s', d, i, r, j);
    }
    forall j: nat, k: nat | j < k < |c'| ensures s'.mem[c'[j]].rank < s'.mem[c'[k]].rank {
      PublishChainAt(s, s', d, i, r, j);
      PublishChainAt(s, s', d, i, r, k);
      RankOrder(s, d, i, r, j, k);
    }
  }

  lemma PublishEvolves(s: Sys, s': Sys, d: Dir, i: nat, r: real)
    requires Publish(s, s', i, r) && WriterOk(s) && s.mem[s.writer.a].place.d == d && ChainOk(s, d)
    ensures Evolves(s, s')
  {
    PublishMem(s, s', d, i, r);
    hide ChainOk;
    assert s'.clock == s.clock + 1 && s'.readers == s.readers;
    forall e: Dir, z | z in s'.chain.At(e) ensures z in s.chain.At(e) || z == s.writer.a {
      PublishHas(s, s', d, i, r, e, z);
    }
    hide Publish;
  }

  lemma PublishHas(s: Sys, s': Sys, d: Dir, i: nat, r: real, e: Dir, z: Addr)
    requires Publish(s, s', i, r) && WriterOk(s) && s.mem[s.writer.a].place.d == d && z in s'.chain.At(e)
    ensures z in s.chain.At(e) || z == s.writer.a
  {
    InsertAtHas(s.chain.At(d), i, s.writer.a, z);
    assert s'.chain.At(e) == if e == d then InsertAt(s.chain.At(d), i, s.writer.a) else s.chain.At(e);
  }

  lemma PublishEntry(s: Sys, s': Sys, d: Dir, i: nat, r: real, x: Addr)
    requires Publish(s, s', i, r) && WriterOk(s) && s.mem[s.writer.a].place.d == d
    requires ChainOk(s, Input) && ChainOk(s, Output)
    requires x in s.mem && GoneOk(s, x) && LiveOk(s, x)
    ensures x in s'.mem && GoneOk(s', x) && LiveOk(s', x)
  {
    PublishMem(s, s', d, i, r);
    if s.mem[x].gone > 0 {
      PublishEvolves(s, s', d, i, r);
      GoneKept(s, s', x);
    } else {
      PublishLive(s, s', d, i, r, x);
    }
  }

  lemma PublishLive(s: Sys, s': Sys, d: Dir, i: nat, r: real, x: Addr)
    requires Publish(s, s', i, r) && WriterOk(s) && s.mem[s.writer.a].place.d == d && ChainOk(s, d)
    requires x in s.mem && s.mem[x].gone == 0 && LiveOk(s, x)
    ensures x in s'.mem && s'.mem[x].gone == 0 && LiveOk(s', x)
  {
    PublishMem(s, s', d, i, r);
    var e := s.mem[x].place;
    InsertAtHas(s.chain.At(d), i, s.writer.a, x);
    assert e.Chain? ==> s'.chain.At(e.d) == if e.d == d then InsertAt(s.chain.At(d), i, s.writer.a)
      else s.chain.At(e.d);
    hide ChainOk, InsertAt;
  }

  lemma InsertAtHas(c: seq<Addr>, i: nat, a: Addr, z: Addr)
    requires i <= |c|
    ensures z in InsertAt(c, i, a) <==> z in c || z == a
  {
    assert c == c[..i] + c[i..];
  }

  lemma PublishOther(s: Sys, s': Sys, d: Dir, i: nat, r: real, e: Dir)
    requires Publish(s, s', i, r) && WriterOk(s) && s.mem[s.writer.a].place.d == d && d != e
    requires ChainOk(s, d) && ChainOk(s, e)
    ensures ChainOk(s', e)
  {
    PublishMem(s, s', d, i, r);
    ChainKept(s, s', e);
  }

  lemma PublishFull(s: Sys, s': Sys, d: Dir, i: nat, r: real)
    requires FullOk(s) && Publish(s, s', i, r) && WriterOk(s) && s.mem[s.writer.a].place.d == d && ChainOk(s, d)
    ensures s'.mem.Keys == s.mem.Keys && FullOk(s') && WriterOk(s')
  {
    PublishMem(s, s', d, i, r);
    FullKept(s, s');
  }

  lemma PublishLists(s: Sys, s': Sys, d: Dir, i: nat, r: real, e: Dir)
    requires ListsOk(s) && Publish(s, s', i, r) && s.mem[s.writer.a].place.d == d && d != e
    ensures ListsOk(s')
  {
    PublishFull(s, s', d, i, r);
    PublishChain(s, s', d, i, r);
    PublishOther(s, s', d, i, r, e);
    hide ChainOk, FullOk, GoneOk, LiveOk;
    forall x | x in s'.mem ensures GoneOk(s', x) && LiveOk(s', x) {
      PublishEntry(s, s', d, i, r, x);
    }
  }

  lemma PublishGrace(s: Sys, s': Sys, d: Dir, i: nat, r: real)
    requires PendingOk(s) && FreedOk(s)
    requires Publish(s, s', i, r) && WriterOk(s) && s.mem[s.writer.a].place.d == d && ChainOk(s, d)
    ensures PendingOk(s') && FreedOk(s')
  {
    PublishMem(s, s', d, i, r);
  }

  lemma PublishInv(s: Sys, s': Sys, i: nat, r: real)
    requires Inv(s) && Publish(s, s', i, r)
    ensures Inv(s')
  {
    var d := s.mem[s.writer.a].place.d;
    PublishLists(s, s', d, i, r, if d.Input? then Output else Input);
    assert ReadersOk(s') by { PublishEvolves(s, s', d, i, r); ReadersKept(s, s'); }
    PublishGrace(s, s', d, i, r);
  }

  /** Wherever the writer puts the entry it is adding, there is a rank for it: no insertion
      is left out by asking for one. */
  lemma CanPublish(s: Sys, i: nat) returns (r: real, s': Sys)
    requires Inv(s) && s.writer.Adding? && i <= |s.chain.At(s.mem[s.writer.a].place.d)|
    ensures Publish(s, s', i, r)
  {
    var a := s.writer.a;
    var d := s.mem[a].place.d;
    var c := s.chain.At(d);
    assert ChainOk(s, d) by { assert d == Input || d == Output; }
    var low := if i > 0 then s.mem[c[i-1]].rank else 0.0;
    r := if i < |c| then (low + s.mem[c[i]].rank) / 2.0 else low + 1.0;
    assert 0 < i < |c| ==> s.mem[c[i-1]].rank < s.mem[c[i]].rank;
    assert i < |c| ==> low < s.mem[c[i]].rank;
    assert Between(s, c, i, r);
    var m := s.mem[a := s.mem[a].(next := LinkAt(c, i), pub := s.clock, rank := r)];
    s' := s.(clock := s.clock + 1,
             mem := if i == 0 then m else m[c[i-1] := s.mem[c[i-1]].(next := To(a))],
             first := if i == 0 then s.first.With(d, To(a)) else s.first,
             chain := s.chain.With(d, InsertAt(c, i, a)),
             writer := Idle);
  }

  /** Unlinking dates the entry and redirects its predecessor, nothing else. */
  lemma UnlinkMem(s: Sys, s': Sys, d: Dir, i: nat, w: Writer)
    requires Unlink(s, s', d, i, w) && ChainOk(s, d)
    ensures s'.mem.Keys == s.mem.Keys
    ensures s'.mem[s.chain.At(d)[i]] == s.mem[s.chain.At(d)[i]].(gone := s.clock)
    ensures forall x | x in s.mem && x != s.chain.At(d)[i] :: s'.mem[x] == s.mem[x].(next := s'.mem[x].next)
    ensures forall x | x in s.mem && x != s.chain.At(d)[i] && s'.mem[x] != s.mem[x] ::
              i > 0 && x == s.chain.At(d)[i-1] && s'.mem[x].next == LinkAt(s.chain.At(d), i + 1)
    ensures i > 0 ==> s'.mem[s.chain.At(d)[i-1]].next == LinkAt(s.chain.At(d), i + 1)
  {
    if i > 0 {
      assert s.mem[s.chain.At(d)[i-1]].rank < s.mem[s.chain.At(d)[i]].rank;
    }
  }

  lemma RemoveAtLink(c: seq<Addr>, i: nat, j: nat)
    requires i < |c| && j < |c| - 1
    ensures RemoveAt(c, i)[j] == c[if j < i then j else j + 1]
    ensures LinkAt(RemoveAt(c, i), j + 1) == LinkAt(c, if j + 1 < i then j + 1 else j + 2)
  {
  }

  lemma UnlinkChainEntry(s: Sys, s': Sys, d: Dir, i: nat, w: Writer, k: nat)
    requires Unlink(s, s', d, i, w) && ChainOk(s, d)
    requires k < |s.chain.At(d)| && k != i
    ensures var x := s.chain.At(d)[k];
      x in s.mem && x in s.full &&
      s'.mem[x] == s.mem[x].(next := LinkAt(s.chain.At(d), if k + 1 == i then i + 1 else k + 1))
  {
    UnlinkMem(s, s', d, i, w);
    ChainDistinct(s, d, k, i);
    if i > 0 && k != i - 1 { ChainDistinct(s, d, k, i - 1); }
    var x := s.chain.At(d)[k];
    assert x in s.mem && x in s.full && s.mem[x].next == LinkAt(s.chain.At(d), k + 1);
    hide ChainOk, Unlink, LinkAt;
  }

  lemma UnlinkChainAt(s: Sys, s': Sys, d: Dir, i: nat, w: Writer, j: nat)
    requires Unlink(s, s', d, i, w) && ChainOk(s, d) && j < |s.chain.At(d)| - 1
    ensures |s'.chain.At(d)| == |s.chain.At(d)| - 1
    ensures var (c, c') := (s.chain.At(d), s'.chain.At(d));
      var x := c'[j];
      && x == c[if j < i then j else j + 1] && x in s.mem && x in s.full
      && s'.mem[x] == s.mem[x].(next := LinkAt(c', j + 1))
  {
    hide ChainOk;
    var c := s.chain.At(d);
    assert s'.chain.At(d) == RemoveAt(c, i);
    RemoveAtLink(c, i, j);
    hide RemoveAt, LinkAt;
    UnlinkChainEntry(s, s', d, i, w, if j < i then j else j + 1);
  }

  lemma UnlinkFirst(s: Sys, s': Sys, d: Dir, i: nat, w: Writer)
    requires Unlink(s, s', d, i, w) && ChainOk(s, d)
    ensures s'.first.At(d) == LinkAt(s'.chain.At(d), 0)
    ensures s'.full == s.full && s'.clock == s.clock + 1 && |s'.chain.At(d)| == |s.chain.At(d)| - 1
  {
    assert s'.chain.At(d) == RemoveAt(s.chain.At(d), i);
    if |s.chain.At(d)| > 1 { RemoveAtLink(s.chain.At(d), i, 0); }
  }

  lemma UnlinkEntryOk(s: Sys, s': Sys, d: Dir, i: nat, w: Writer, j: nat)
    requires Unlink(s, s', d, i, w) && ChainOk(s, d) && j < |s'.chain.At(d)| == |s.chain.At(d)| - 1
    ensures var (x, c') := (s'.chain.At(d)[j], s'.chain.At(d));
      && x in s'.mem && x in s'.full
      && var e := s'.mem[x];
      && e.place == Chain(d) && 0 < e.pub < s'.clock && e.gone == 0 && e.rank > 0.0 && e.next == LinkAt(c', j + 1)
  {
    UnlinkChainAt(s, s', d, i, w, j);
  }

  lemma UnlinkOrder(s: Sys, s': Sys, d: Dir, i: nat, w: Writer, j: nat, k: nat)
    requires Unlink(s, s', d, i, w) && ChainOk(s, d) && j < k < |s'.chain.At(d)| == |s.chain.At(d)| - 1
    ensures var c' := s'.chain.At(d); c'[j] in s'.mem && c'[k] in s'.mem && s'.mem[c'[j]].rank < s'.mem[c'[k]].rank
  {
    UnlinkChainAt(s, s', d, i, w, j);
    UnlinkChainAt(s, s', d, i, w, k);
    hide Unlink;
    var c := s.chain.At(d);
    assert s.mem[c[if j < i then j else j + 1]].rank < s.mem[c[if k < i then k else k + 1]].rank;
  }

  lemma UnlinkChain(s: Sys, s': Sys, d: Dir, i: nat, w: Writer)
    requires Unlink(s, s', d, i, w) && ChainOk(s, d)
    ensures ChainOk(s', d)
  {
    hide Unlink, LinkAt;
    UnlinkFirst(s, s', d, i, w);
    var c' := s'.chain.At(d);
    forall j: nat | j < |c'|
      ensures c'[j] in s'.mem && c'[j] in s'.full
      ensures var e := s'.mem[c'[j]];
        e.place == Chain(d) && 0 < e.pub < s'.clock && e.gone == 0 && e.rank > 0.0 && e.next == LinkAt(c', j + 1)
    {
      UnlinkEntryOk(s, s', d, i, w, j);
    }
    forall j: nat, k: nat | j < k < |c'| ensures s'.mem[c'[j]].rank < s'.mem[c'[k]].rank {
      UnlinkOrder(s, s', d, i, w, j, k);
    }
  }

  lemma UnlinkEvolves(s: Sys, s': Sys, d: Dir, i: nat, w: Writer)
    requires Unlink(s, s', d, i, w) && ChainOk(s, d)
    ensures Evolves(s, s')
  {
    UnlinkMem(s, s', d, i, w);
    var c := s.chain.At(d);
    assert s.mem[c[i]].gone == 0 && s'.mem[c[i]].gone == s.clock;
    forall e: Dir, z | z in s'.chain.At(e) ensures z in s.chain.At(e) {
      assert s'.chain.At(e) == if e == d then RemoveAt(c, i) else s.chain.At(e);
    }
    hide ChainOk, Unlink;
  }

  lemma UnlinkedSkips(s: Sys, s': Sys, d: Dir, i: nat, w: Writer, z: Addr)
    requires Unlink(s, s', d, i, w) && ChainOk(s, d)
    requires z in s'.chain.At(d) && z in s'.mem && s.mem[s.chain.At(d)[i]].rank < s'.mem[z].rank
    ensures i + 1 < |s.chain.At(d)|
    ensures z == s.chain.At(d)[i+1] || s.mem[s.chain.At(d)[i+1]].rank < s'.mem[z].rank
  {
    UnlinkFirst(s, s', d, i, w);
    var c := s.chain.At(d);
    var j :| 0 <= j < |c| - 1 && s'.chain.At(d)[j] == z;
    UnlinkChainAt(s, s', d, i, w, j);
    var k := if j < i then j else j + 1;
    hide Unlink, LinkAt;
    assert i < k;
  }

  lemma UnlinkedEntry(s: Sys, s': Sys, d: Dir, i: nat, w: Writer)
    requires Unlink(s, s', d, i, w) && ChainOk(s, d)
    ensures var x := s.chain.At(d)[i]; x in s'.mem && GoneOk(s', x) && LiveOk(s', x)
  {
    var c := s.chain.At(d);
    var x := c[i];
    UnlinkMem(s, s', d, i, w);
    if i + 1 < |c| {
      ChainDistinct(s, d, i, i + 1);
      assert s.mem[c[i]].rank < s.mem[c[i+1]].rank;
    }
    forall z | z in s'.chain.At(d) && z in s'.mem && s.mem[x].rank < s'.mem[z].rank
      ensures i + 1 < |c| && (z == c[i+1] || s'.mem[c[i+1]].rank < s'.mem[z].rank)
    {
      UnlinkedSkips(s, s', d, i, w, z);
    }
  }

  lemma UnlinkEntry(s: Sys, s': Sys, d: Dir, i: nat, w: Writer, x: Addr)
    requires Unlink(s, s', d, i, w) && !s.writer.Adding?
    requires ChainOk(s, Input) && ChainOk(s, Output)
    requires x in s.mem && GoneOk(s, x) && LiveOk(s, x)
    ensures x in s'.mem && GoneOk(s', x) && LiveOk(s', x)
  {
    if x == s.chain.At(d)[i] {
      UnlinkedEntry(s, s', d, i, w);
    } else {
      UnlinkMem(s, s', d, i, w);
      if s.mem[x].gone > 0 {
        UnlinkEvolves(s, s', d, i, w);
        GoneKept(s, s', x);
      }
    }
  }

  lemma UnlinkOther(s: Sys, s': Sys, d: Dir, i: nat, w: Writer, e: Dir)
    requires Unlink(s, s', d, i, w) && d != e && ChainOk(s, d) && ChainOk(s, e)
    ensures ChainOk(s', e)
  {
    UnlinkMem(s, s', d, i, w);
    ChainKept(s, s', e);
  }

  lemma UnlinkFull(s: Sys, s': Sys, d: Dir, i: nat, w: Writer)
    requires FullOk(s) && Unlink(s, s', d, i, w) && ChainOk(s, d)
    ensures FullOk(s') && s'.mem.Keys == s.mem.Keys
  {
    UnlinkMem(s, s', d, i, w);
    FullKept(s, s');
  }

  lemma UnlinkLists(s: Sys, s': Sys, d: Dir, i: nat, w: Writer, e: Dir)
    requires ListsOk(s) && Unlink(s, s', d, i, w) && !s.writer.Adding? && WriterOk(s') && d != e
    ensures ListsOk(s')
  {
    UnlinkChain(s, s', d, i, w);
    UnlinkOther(s, s', d, i, w, e);
    UnlinkFull(s, s', d, i, w);
    assert EntriesOk(s') by {
      forall x | x in s'.mem ensures GoneOk(s', x) && LiveOk(s', x) {
        UnlinkEntry(s, s', d, i, w, x);
      }
    }
  }

  lemma UnlinkInv(s: Sys, s': Sys, d: Dir, i: nat, w: Writer)
    requires Inv(s) && Unlink(s, s', d, i, w) && !s.writer.Adding? && WriterOk(s')
    ensures Inv(s')
  {
    UnlinkLists(s, s', d, i, w, if d.Input? then Output else Input);
    assert ReadersOk(s') by { UnlinkEvolves(s, s', d, i, w); ReadersKept(s, s'); }
  }

  // Retire

  lemma RetireFull(s: Sys, s': Sys, i: nat)
    requires FullOk(s) && Retire(s, s', i)
    ensures FullOk(s') && (forall x | x in s.full && x != s.full[i] :: x in s'.full)
  {
  }

  lemma RetireLists(s: Sys, s': Sys, i: nat)
    requires ListsOk(s) && Retire(s, s', i) && !s.writer.Adding?
    requires s.full[i] !in s.chain.input && s.full[i] !in s.chain.output
    ensures ListsOk(s')
  {
    hide ChainOk, FullOk, EntriesOk, WriterOk;
    RetireChain(s, s', i, Input);
    RetireChain(s, s', i, Output);
    RetireRest(s, s', i);
    RetireEntries(s, s', i);
  }

  lemma RetireRest(s: Sys, s': Sys, i: nat)
    requires FullOk(s) && WriterOk(s) && Retire(s, s', i) && !s.writer.Adding?
    ensures FullOk(s') && WriterOk(s')
  {
    RetireFull(s, s', i);
    hide FullOk;
  }

  lemma RetireEntries(s: Sys, s': Sys, i: nat)
    requires EntriesOk(s) && Retire(s, s', i)
    ensures EntriesOk(s')
  {
    hide GoneOk, LiveOk;
    forall x | x in s'.mem ensures GoneOk(s', x) && LiveOk(s', x) { RetireEntry(s, s', i, x); }
  }

  lemma RetireChain(s: Sys, s': Sys, i: nat, d: Dir)
    requires ChainOk(s, d) && FullOk(s) && Retire(s, s', i) && s.full[i] !in s.chain.At(d)
    ensures ChainOk(s', d)
  {
    RetireFull(s, s', i);
    ChainKept(s, s', d);
  }

  lemma RetireEntry(s: Sys, s': Sys, i: nat, x: Addr)
    requires Retire(s, s', i) && x in s.mem && GoneOk(s, x) && LiveOk(s, x)
    ensures x in s'.mem && GoneOk(s', x) && LiveOk(s', x)
  {
  }

  lemma RetireGrace(s: Sys, s': Sys, i: nat)
    requires PendingOk(s) && FreedOk(s) && FullOk(s) && Retire(s, s', i) && !s.writer.Adding?
    requires s.full[i] in s.mem && LiveOk(s, s.full[i])
    requires s.full[i] !in s.chain.input && s.full[i] !in s.chain.output
    ensures PendingOk(s') && FreedOk(s')
  {
    var x := s.full[i];
    assert s.mem[x].gone > 0 || s.mem[x].place.Nowhere?;
    assert x !in s'.full;
  }

  lemma RetireInv(s: Sys, s': Sys, i: nat)
    requires Inv(s) && Retire(s, s', i) && !s.writer.Adding?
    requires s.full[i] !in s.chain.input && s.full[i] !in s.chain.output
    ensures Inv(s')
  {
    RetireLists(s, s', i);
    RetireGrace(s, s', i);
    ReadersKept(s, s');
  }

  // ----- every step keeps the invariant -----

  lemma ChainKeysDiffer(s: Sys, d: Dir, i: nat, j: nat)
    requires ChainOk(s, d) && FullOk(s) && i < |s.chain.At(d)| && j < |s.chain.At(d)| && i != j
    ensures s.mem[s.chain.At(d)[i]].key != s.mem[s.chain.At(d)[j]].key
  {
    ChainDistinct(s, d, i, j);
    var a, b := s.chain.At(d)[i], s.chain.At(d)[j];
    var x :| 0 <= x < |s.full| && s.full[x] == a;
    var y :| 0 <= y < |s.full| && s.full[y] == b;
  }

  lemma AfterUnlinkNoMatch(s: Sys, s': Sys, d: Dir, i: nat, w: Writer, k: Key)
    requires Unlink(s, s', d, i, w) && ChainOk(s, d) && FullOk(s)
    requires s.mem[s.chain.At(d)[i]].key == k
    ensures NoMatch(s', s'.chain.At(d), k)
  {
    var c := s.chain.At(d);
    forall j | 0 <= j < |c| - 1
      ensures s'.chain.At(d)[j] in s'.mem && s'.mem[s'.chain.At(d)[j]].key != k
    {
      RemoveAtLink(c, i, j);
      var m := if j < i then j else j + 1;
      ChainKeysDiffer(s, d, m, i);
      UnlinkChainEntry(s, s', d, i, w, m);
    }
  }

  lemma WriterMovesInv(s: Sys, s': Sys, w: Writer)
    requires Inv(s) && s' == s.(writer := w) && !s.writer.Adding? && WriterOk(s')
    ensures Inv(s')
  {
    ChainKept(s, s', Input);
    ChainKept(s, s', Output);
    forall x | x in s'.mem ensures GoneOk(s', x) && LiveOk(s', x) {
      assert GoneOk(s, x) && LiveOk(s, x);
      if s.mem[x].gone > 0 { GoneKept(s, s', x); }
    }
    ReadersKept(s, s');
  }

  lemma DelInputInv(s: Sys, s': Sys, i: nat, k: Key)
    requires Inv(s) && DeleteStep(s, s', i) && s.writer == DelInput(k)
    ensures Inv(s')
  {
    hide ChainOk, FullOk, EntriesOk, PendingOk, FreedOk, ReadersOk;
    if FirstMatch(s, s.chain.input, k, i) && Unlink(s, s', Input, i, DelOutput(k)) {
      AfterUnlinkNoMatch(s, s', Input, i, DelOutput(k), k);
      hide Unlink, NoMatch;
      UnlinkInv(s, s', Input, i, DelOutput(k));
    } else {
      WriterMovesInv(s, s', DelOutput(k));
    }
  }

  lemma DelOutputInv(s: Sys, s': Sys, i: nat, k: Key)
    requires Inv(s) && DeleteStep(s, s', i) && s.writer == DelOutput(k)
    ensures Inv(s')
  {
    hide ChainOk, FullOk, EntriesOk, PendingOk, FreedOk, ReadersOk;
    if FirstMatch(s, s.chain.output, k, i) && Unlink(s, s', Output, i, DelFull(k)) {
      AfterUnlinkNoMatch(s, s', Output, i, DelFull(k), k);
      UnlinkInv(s, s', Output, i, DelFull(k));
    } else {
      WriterMovesInv(s, s', DelFull(k));
    }
  }

  lemma DelFullInv(s: Sys, s': Sys, i: nat, k: Key)
    requires Inv(s) && DeleteStep(s, s', i) && s.writer == DelFull(k)
    ensures Inv(s')
  {
    hide ChainOk, FullOk, EntriesOk, PendingOk, FreedOk, ReadersOk;
    if FirstMatch(s, s.full, k, i) && Retire(s, s', i) {
      RetireInv(s, s', i);
    } else {
      WriterMovesInv(s, s', Idle);
    }
  }

  lemma DeleteInv(s: Sys, s': Sys, i: nat)
    requires Inv(s) && DeleteStep(s, s', i)
    ensures Inv(s')
  {
    hide Inv;
    match s.writer
    case DelInput(k) => DelInputInv(s, s', i, k);
    case DelOutput(k) => DelOutputInv(s, s', i, k);
    case DelFull(k) => DelFullInv(s, s', i, k);
    case _ =>
  }

  lemma FlushInv(s: Sys, s': Sys)
    requires Inv(s) && FlushStep(s, s')
    ensures Inv(s')
  {
    match s.writer
    case FlushInput =>
      if s.chain.input != [] { UnlinkInv(s, s', Input, 0, FlushInput); } else { WriterMovesInv(s, s', FlushOutput); }
    case FlushOutput =>
      if s.chain.output != [] { UnlinkInv(s, s', Output, 0, FlushOutput); } else { WriterMovesInv(s, s', FlushFull); }
    case FlushFull =>
      if s.full != [] { RetireInv(s, s', 0); } else { WriterMovesInv(s, s', Idle); }
    case _ =>
  }

  lemma WriterInv(s: Sys, s': Sys)
    requires Inv(s) && WriterStep(s, s')
    ensures Inv(s')
  {
    if a, k, p :| StartAdd(s, s', a, k, p) {
      StartAddInv(s, s', a, k, p);
    } else if i: nat, r: real :| Publish(s, s', i, r) {
      PublishInv(s, s', i, r);
    } else if w :| Accept(s, s', w) {
      WriterMovesInv(s, s', w);
    } else if i: nat :| DeleteStep(s, s', i) {
      DeleteInv(s, s', i);
    } else {
      FlushInv(s, s');
    }
  }

  lemma ReaderInv(s: Sys, s': Sys, t: Tid)
    requires Inv(s) && ReaderStep(s, s', t)
    ensures Inv(s')
  {
    if d :| Lock(s, s', t, d) {
      LockInv(s, s', t, d);
    } else if Load(s, s', t) {
      LoadInv(s, s', t);
    } else {
      UnlockInv(s, s', t);
    }
  }

  lemma NextInv(s: Sys, s': Sys)
    requires Inv(s) && Next(s, s')
    ensures Inv(s')
  {
    if WriterStep(s, s') {
      WriterInv(s, s');
    } else if x :| FreeStep(s, s', x) {
      FreeInv(s, s', x);
    } else {
      var t :| ReaderStep(s, s', t);
      ReaderInv(s, s', t);
    }
  }
}
