/** What the writer's messages and the free queue get done: a delete or a flush takes out all
    it is to take out and queues it for freeing, no message gets stuck or goes on for ever,
    and what nobody waits for can be freed. */
module RcuProgress {
  import opened Seqs
  import opened RcuModel
  import opened RcuReaders
  import opened RcuWriter
  import opened RcuRuns

  // ----- nothing leaves full_list but to the free queue -----

  /** On full_list, or on the way to being freed. */
  predicate Kept(s: Sys, x: Addr) { x in s.full || x in s.pending || x in s.freed }

  lemma NextKeeps(s: Sys, s': Sys, x: Addr)
    requires Next(s, s') && Kept(s, x)
    ensures Kept(s', x)
  {
    if WriterStep(s, s') {
      if a, k, p :| StartAdd(s, s', a, k, p) {
      } else if i: nat, r: real :| Publish(s, s', i, r) {
      } else if w :| Accept(s, s', w) {
      } else if i: nat :| DeleteStep(s, s', i) {
        DeleteKeeps(s, s', i, x);
      } else {
        FlushKeeps(s, s', x);
      }
    }
  }

  lemma RetireKeeps(s: Sys, s': Sys, i: nat, x: Addr)
    requires Retire(s, s', i) && Kept(s, x)
    ensures Kept(s', x)
  {
    if x in s.full && x != s.full[i] {
      var j :| 0 <= j < |s.full| && s.full[j] == x;
      assert s'.full[if j < i then j else j - 1] == x;
    }
  }

  lemma DeleteKeeps(s: Sys, s': Sys, i: nat, x: Addr)
    requires DeleteStep(s, s', i) && Kept(s, x)
    ensures Kept(s', x)
  {
    match s.writer
    case DelFull(k) =>
      if Retire(s, s', i) { RetireKeeps(s, s', i, x); }
    case _ =>
  }

  lemma FlushKeeps(s: Sys, s': Sys, x: Addr)
    requires FlushStep(s, s') && Kept(s, x)
    ensures Kept(s', x)
  {
    if s.writer.FlushFull? && s.full != [] { RetireKeeps(s, s', 0, x); }
  }

  /** Whatever was on full_list at some point and is off it later is queued for freeing, or
      freed already. */
  lemma {:induction false} OffIsQueued(tr: seq<Sys>, i: nat, j: nat, x: Addr)
    requires Run(tr) && i <= j < |tr| && x in tr[i].full
    ensures x in tr[j].full || x in tr[j].pending || x in tr[j].freed
  {
    hide Next, Init;
    KeptOn(tr, i, j, x);
  }

  lemma {:induction false} KeptOn(tr: seq<Sys>, i: nat, j: nat, x: Addr)
    requires Run(tr) && i <= j < |tr| && Kept(tr[i], x)
    ensures Kept(tr[j], x)
  {
    hide Next, Init, Kept;
    if i == j {
    } else {
      KeptOn(tr, i, j - 1, x);
      assert Next(tr[j-1], tr[j-1+1]);
      NextKeeps(tr[j-1], tr[j], x);
    }
  }

  // ----- what a finished message has done -----

  /** No entry of any list has this key. */
  ghost predicate Gone(s: Sys, k: Key) {
    NoMatch(s, s.full, k) && NoMatch(s, s.chain.input, k) && NoMatch(s, s.chain.output, k)
  }

  /** When the writer is done with a delete, no entry of full_list or of either chain has the
      key any more; when it is done with a flush, all three lists are empty. */
  lemma MessageDone(tr: seq<Sys>, i: nat)
    requires Run(tr) && i + 1 < |tr| && tr[i+1].writer.Idle?
    ensures tr[i].writer.DelFull? ==> Gone(tr[i+1], tr[i].writer.k)
    ensures tr[i].writer.FlushFull? ==> tr[i+1].full == tr[i+1].chain.input == tr[i+1].chain.output == []
    ensures tr[i].writer.Idle? || tr[i].writer.Adding? || tr[i].writer.DelFull? || tr[i].writer.FlushFull?
  {
    hide Init;
    RunInv(tr, i);
    assert WriterOk(tr[i]) && Next(tr[i], tr[i+1]);
    hide Inv, Run;
    StepDone(tr[i], tr[i+1]);
  }

  lemma StepDone(s: Sys, s': Sys)
    requires WriterOk(s) && Next(s, s') && s'.writer.Idle?
    ensures match s.writer
      case DelFull(k) => Gone(s', k)
      case FlushFull => s'.full == s'.chain.input == s'.chain.output == []
      case w => w.Idle? || w.Adding?
  {
    if WriterStep(s, s') {
      if i: nat :| DeleteStep(s, s', i) {
        hide WriterStep;
      }
    }
  }

  /** When the writer is done with an add, the new entry is on full_list and on its chain. */
  lemma AddDone(tr: seq<Sys>, i: nat)
    requires Run(tr) && i + 1 < |tr| && tr[i].writer.Adding? && tr[i+1].writer.Idle?
    ensures var s', a := tr[i+1], tr[i].writer.a;
      a in s'.full && a in s'.mem && s'.mem[a].place.Chain? && a in s'.chain.At(s'.mem[a].place.d)
  {
    hide Init;
    RunInv(tr, i);
    assert WriterOk(tr[i]) && ChainOk(tr[i], Input) && ChainOk(tr[i], Output) && Next(tr[i], tr[i+1]);
    hide Inv, Run;
    AddStepDone(tr[i], tr[i+1]);
  }

  lemma AddStepDone(s: Sys, s': Sys)
    requires WriterOk(s) && ChainOk(s, Input) && ChainOk(s, Output)
    requires Next(s, s') && s.writer.Adding? && s'.writer.Idle?
    ensures var a := s.writer.a;
      a in s'.full && a in s'.mem && s'.mem[a].place.Chain? && a in s'.chain.At(s'.mem[a].place.d)
  {
    var a := s.writer.a;
    var d := s.mem[a].place.d;
    assert d == Input || d == Output;
    if i: nat, r: real :| Publish(s, s', i, r) {
      PublishDone(s, s', d, i, r);
    }
  }

  lemma PublishDone(s: Sys, s': Sys, d: Dir, i: nat, r: real)
    requires WriterOk(s) && ChainOk(s, d) && Publish(s, s', i, r) && s.mem[s.writer.a].place.d == d
    ensures var a := s.writer.a; a in s'.full && a in s'.mem && s'.mem[a].place == Chain(d) && a in s'.chain.At(d)
  {
    PublishMem(s, s', d, i, r);
    InsertAtHas(s.chain.At(d), i, s.writer.a, s.writer.a);
  }

  lemma NextKeepsKey(s: Sys, s': Sys, x: Addr)
    requires Inv(s) && Next(s, s') && x in s.mem
    ensures x in s'.mem && s'.mem[x].key == s.mem[x].key
  {
    hide PendingOk, FreedOk, ReadersOk, ChainOk, EntriesOk, FullOk, WriterOk;
    if WriterStep(s, s') {
      hide WriterStep;
      WriterKeepsKey(s, s', x);
    }
  }

  lemma WriterKeepsKey(s: Sys, s': Sys, x: Addr)
    requires ChainOk(s, Input) && ChainOk(s, Output) && WriterOk(s) && WriterStep(s, s') && x in s.mem
    ensures x in s'.mem && s'.mem[x].key == s.mem[x].key
  {
    if a, k, p :| StartAdd(s, s', a, k, p) {
    } else if i: nat, r: real :| Publish(s, s', i, r) {
      PublishKeepsKey(s, s', i, r, x);
    } else if w :| Accept(s, s', w) {
    } else if i: nat :| DeleteStep(s, s', i) {
      DeleteKeepsKey(s, s', i, x);
    } else {
      FlushKeepsKey(s, s', x);
    }
  }

  lemma PublishKeepsKey(s: Sys, s': Sys, i: nat, r: real, x: Addr)
    requires ChainOk(s, Input) && ChainOk(s, Output) && WriterOk(s) && Publish(s, s', i, r) && x in s.mem
    ensures x in s'.mem && s'.mem[x].key == s.mem[x].key
  {
    var d := s.mem[s.writer.a].place.d;
    assert d == Input || d == Output;
    PublishMem(s, s', d, i, r);
  }

  lemma DeleteKeepsKey(s: Sys, s': Sys, i: nat, x: Addr)
    requires ChainOk(s, Input) && ChainOk(s, Output) && DeleteStep(s, s', i) && x in s.mem
    ensures x in s'.mem && s'.mem[x].key == s.mem[x].key
  {
    match s.writer
    case DelInput(k) =>
      if Unlink(s, s', Input, i, DelOutput(k)) { UnlinkMem(s, s', Input, i, DelOutput(k)); }
    case DelOutput(k) =>
      if Unlink(s, s', Output, i, DelFull(k)) { UnlinkMem(s, s', Output, i, DelFull(k)); }
    case _ =>
  }

  lemma FlushKeepsKey(s: Sys, s': Sys, x: Addr)
    requires ChainOk(s, Input) && ChainOk(s, Output) && FlushStep(s, s') && x in s.mem
    ensures x in s'.mem && s'.mem[x].key == s.mem[x].key
  {
    match s.writer
    case FlushInput =>
      if s.chain.input != [] { UnlinkMem(s, s', Input, 0, FlushInput); }
    case FlushOutput =>
      if s.chain.output != [] { UnlinkMem(s, s', Output, 0, FlushOutput); }
    case _ =>
  }

  lemma {:induction false} KeyConstant(tr: seq<Sys>, i: nat, j: nat, x: Addr)
    requires Run(tr) && i <= j < |tr| && x in tr[i].mem
    ensures x in tr[j].mem && tr[j].mem[x].key == tr[i].mem[x].key
  {
    hide Inv, Next, Init;
    if i == j {
    } else {
      KeyConstant(tr, i, j - 1, x);
      RunInv(tr, j - 1);
      assert Next(tr[j-1], tr[j-1+1]);
      NextKeepsKey(tr[j-1], tr[j], x);
    }
  }

  /** The entries a delete is about, whenever they came on full_list: when the writer is done
      with it they hang on no list, and are queued for freeing or freed. */
  lemma DeletedIsQueued(tr: seq<Sys>, i: nat, j: nat, x: Addr, k: Key)
    requires Run(tr) && i < j < |tr| && x in tr[i].full && x in tr[i].mem && tr[i].mem[x].key == k
    requires tr[j-1].writer == DelFull(k) && tr[j].writer.Idle?
    ensures x !in tr[j].full && x !in tr[j].chain.input && x !in tr[j].chain.output
    ensures x in tr[j].pending || x in tr[j].freed
  {
    hide Run, Inv;
    MessageDone(tr, j - 1);
    KeyConstant(tr, i, j, x);
    OffIsQueued(tr, i, j, x);
    assert tr[j-1+1] == tr[j];
  }

  /** A step of a delete leaves all entries with other keys where they are. */
  lemma OthersStay(s: Sys, s': Sys, i: nat, k: Key, y: Addr)
    requires DeleteStep(s, s', i) && y in s.mem && s.mem[y].key != k
    requires s.writer == DelInput(k) || s.writer == DelOutput(k) || s.writer == DelFull(k)
    ensures y in s'.full <==> y in s.full
    ensures (y in s'.chain.input <==> y in s.chain.input) && (y in s'.chain.output <==> y in s.chain.output)
  {
    hide RemoveAt, NoMatch;
    match s.writer
    case DelInput(_) =>
      if FirstMatch(s, s.chain.input, k, i) && Unlink(s, s', Input, i, DelOutput(k)) {
        RemoveAtHas(s.chain.input, i, y);
      }
    case DelOutput(_) =>
      if FirstMatch(s, s.chain.output, k, i) && Unlink(s, s', Output, i, DelFull(k)) {
        RemoveAtHas(s.chain.output, i, y);
      }
    case DelFull(_) =>
      if FirstMatch(s, s.full, k, i) && Retire(s, s', i) {
        RemoveAtHas(s.full, i, y);
      }
  }

  lemma RemoveAtHas(c: seq<Addr>, i: nat, y: Addr)
    requires i < |c| && c[i] != y
    ensures y in RemoveAt(c, i) <==> y in c
  {
    assert c == c[..i] + [c[i]] + c[i+1..];
  }

  // ----- progress -----

  /** The steps a message has left: nothing can make it go on for ever. */
  function StepsLeft(s: Sys): nat {
    match s.writer
    case Idle => 0
    case Adding(_) => 1
    case DelInput(_) => |s.full| + 3
    case DelOutput(_) => |s.full| + 2
    case DelFull(_) => |s.full| + 1
    case FlushInput => |s.chain.input| + |s.chain.output| + |s.full| + 3
    case FlushOutput => |s.chain.output| + |s.full| + 2
    case FlushFull => |s.full| + 1
  }

  lemma MessageEnds(s: Sys, s': Sys)
    requires !s.writer.Idle? && WriterStep(s, s')
    ensures StepsLeft(s') < StepsLeft(s)
  {
    if i: nat, r: real :| Publish(s, s', i, r) {
    } else if i: nat :| DeleteStep(s, s', i) {
      DeleteWorks(s, s', i);
    } else {
      FlushWorks(s, s');
    }
  }

  lemma DeleteWorks(s: Sys, s': Sys, i: nat)
    requires DeleteStep(s, s', i)
    ensures StepsLeft(s') < StepsLeft(s)
  {
    hide FirstMatch, NoMatch;
  }

  lemma FlushWorks(s: Sys, s': Sys)
    requires FlushStep(s, s')
    ensures StepsLeft(s') < StepsLeft(s)
  {
  }

  lemma {:induction false} FindMatch(s: Sys, c: seq<Addr>, k: Key) returns (i: nat)
    requires forall j | 0 <= j < |c| :: c[j] in s.mem
    ensures NoMatch(s, c, k) || FirstMatch(s, c, k, i)
  {
    if c == [] {
      i := 0;
    } else if s.mem[c[0]].key == k {
      i := 0;
    } else {
      var rest := c[1..];
      i := FindMatch(s, rest, k);
      if FirstMatch(s, rest, k, i) {
        assert c[..i+1] == [c[0]] + rest[..i];
        i := i + 1;
      }
    }
  }

  lemma CanUnlink(s: Sys, d: Dir, i: nat, w: Writer) returns (s': Sys)
    requires ChainOk(s, d) && i < |s.chain.At(d)|
    ensures Unlink(s, s', d, i, w)
  {
    var c := s.chain.At(d);
    var x := c[i];
    var m := s.mem[x := s.mem[x].(gone := s.clock)];
    s' := s.(clock := s.clock + 1,
             mem := if i == 0 then m else m[c[i-1] := s.mem[c[i-1]].(next := s.mem[x].next)],
             first := if i == 0 then s.first.With(d, s.mem[x].next) else s.first,
             chain := s.chain.With(d, RemoveAt(c, i)),
             writer := w);
  }

  lemma CanRetire(s: Sys, i: nat) returns (s': Sys)
    requires i < |s.full|
    ensures Retire(s, s', i)
  {
    s' := s.(clock := s.clock + 1, full := RemoveAt(s.full, i),
             pending := s.pending[s.full[i] := set t | t in s.readers && Inside(s.readers[t].r)]);
  }

  lemma CanDelete(s: Sys) returns (s': Sys, i: nat)
    requires Inv(s) && (s.writer.DelInput? || s.writer.DelOutput? || s.writer.DelFull?)
    ensures DeleteStep(s, s', i)
  {
    var k := s.writer.k;
    hide PendingOk, FreedOk, ReadersOk, EntriesOk;
    match s.writer
    case DelInput(_) =>
      i := FindMatch(s, s.chain.input, k);
      if FirstMatch(s, s.chain.input, k, i) {
        s' := CanUnlink(s, Input, i, DelOutput(k));
      } else {
        s' := s.(writer := DelOutput(k));
      }
    case DelOutput(_) =>
      i := FindMatch(s, s.chain.output, k);
      if FirstMatch(s, s.chain.output, k, i) {
        s' := CanUnlink(s, Output, i, DelFull(k));
      } else {
        s' := s.(writer := DelFull(k));
      }
    case DelFull(_) =>
      i := FindMatch(s, s.full, k);
      if FirstMatch(s, s.full, k, i) {
        s' := CanRetire(s, i);
      } else {
        s' := s.(writer := Idle);
      }
  }

  lemma CanFlush(s: Sys) returns (s': Sys)
    requires Inv(s) && (s.writer.FlushInput? || s.writer.FlushOutput? || s.writer.FlushFull?)
    ensures FlushStep(s, s')
  {
    match s.writer
    case FlushInput =>
      if s.chain.input != [] { s' := CanUnlink(s, Input, 0, FlushInput); } else { s' := s.(writer := FlushOutput); }
    case FlushOutput =>
      if s.chain.output != [] { s' := CanUnlink(s, Output, 0, FlushOutput); } else { s' := s.(writer := FlushFull); }
    case FlushFull =>
      if s.full != [] { s' := CanRetire(s, 0); } else { s' := s.(writer := Idle); }
  }

  lemma CanGoOn(s: Sys) returns (s': Sys)
    requires Inv(s) && !s.writer.Idle?
    ensures WriterStep(s, s')
  {
    hide Inv;
    if s.writer.Adding? {
      var r;
      r, s' := CanPublish(s, 0);
    } else if s.writer.DelInput? || s.writer.DelOutput? || s.writer.DelFull? {
      var i;
      s', i := CanDelete(s);
    } else {
      s' := CanFlush(s);
    }
  }

  /** A message never gets stuck: in every reachable state a busy writer can step. */
  lemma BusySteps(tr: seq<Sys>, i: nat)
    requires Run(tr) && i < |tr| && !tr[i].writer.Idle?
    ensures exists s' :: WriterStep(tr[i], s')
  {
    hide Run, Inv, WriterStep;
    RunInv(tr, i);
    var s' := CanGoOn(tr[i]);
  }

  /** A reader never waits: outside it can enter for either chain, on its way it can load
      the next pointer, and on an entry or at the end it can leave. */
  lemma ReaderSteps(tr: seq<Sys>, i: nat, t: Tid, d: Dir)
    requires Run(tr) && i < |tr| && t in tr[i].readers
    ensures var s, r := tr[i], tr[i].readers[t].r;
      && (r.Outside? || r.Left? ==> exists s' :: Lock(s, s', t, d))
      && (r.Before? || r.On? ==> exists s' :: Load(s, s', t))
      && (r.On? || r.AtHead? ==> exists s' :: Unlock(s, s', t))
  {
    hide Run, Inv;
    RunInv(tr, i);
    ReaderFacts(tr[i], t);
    var s := tr[i];
    var th := s.readers[t];
    if th.r.Outside? || th.r.Left? {
      var s' := s.(clock := s.clock + 1, readers := s.readers[t := Thread(Before(d, s.clock), th.depth + 1)]);
      assert Lock(s, s', t, d);
    }
    if th.r.Before? || th.r.On? {
      var s' := s.(readers := s.readers[t := th.(r := AfterLoad(s, th.r))]);
      assert Load(s, s', t);
    }
    if th.r.On? || th.r.AtHead? {
      var s' := s.(readers := s.readers[t := Thread(Left(th.r.d, th.r.start, th.r.visited, th.r.On?), th.depth - 1)],
                   pending := map x | x in s.pending :: s.pending[x] - {t});
      assert Unlock(s, s', t);
    }
  }

  /** An idle writer takes up any message: a delete or a flush, and an add, into a fresh
      entry, exactly when no stored rule has the key. */
  lemma IdleTakesAny(tr: seq<Sys>, i: nat, k: Key, p: Place, a: Addr)
    requires Run(tr) && i < |tr| && tr[i].writer.Idle? && a !in tr[i].mem
    ensures var s := tr[i];
      && (exists s' :: Accept(s, s', DelInput(k))) && (exists s' :: Accept(s, s', FlushInput))
      && ((exists s' :: StartAdd(s, s', a, k, p)) <==> NoMatch(s, s.full, k))
  {
    hide Run;
    RunInv(tr, i);
    var s := tr[i];
    assert FullOk(s);
    hide Inv, FullOk;
    assert Accept(s, s.(writer := DelInput(k)), DelInput(k)) && Accept(s, s.(writer := FlushInput), FlushInput);
    if NoMatch(s, s.full, k) {
      var s' := s.(clock := s.clock + 1, mem := s.mem[a := Entry(k, p, Head, 0, 0, 0.0)],
                   full := s.full + [a], writer := if p.Chain? then Adding(a) else Idle);
      assert StartAdd(s, s', a, k, p);
    }
  }

  /** The readers an entry still waits for are inside a section they entered before it was
      queued. */
  ghost predicate WaitsInside(s: Sys) {
    forall x, t | x in s.pending && t in s.pending[x] :: t in s.readers && Inside(s.readers[t].r)
  }

  lemma NextWaits(s: Sys, s': Sys)
    requires WaitsInside(s) && Next(s, s')
    ensures WaitsInside(s')
  {
    if t :| ReaderStep(s, s', t) {
      ReaderWaits(s, s', t);
    } else if x :| FreeStep(s, s', x) {
    } else {
      WriterWaits(s, s');
    }
  }

  lemma ReaderWaits(s: Sys, s': Sys, t: Tid)
    requires WaitsInside(s) && ReaderStep(s, s', t)
    ensures WaitsInside(s')
  {
    if d :| Lock(s, s', t, d) {
    } else if Load(s, s', t) {
    } else {
    }
  }

  lemma WriterWaits(s: Sys, s': Sys)
    requires WaitsInside(s) && WriterStep(s, s')
    ensures WaitsInside(s')
  {
    if a, k, p :| StartAdd(s, s', a, k, p) {
    } else if i: nat, r: real :| Publish(s, s', i, r) {
    } else if w :| Accept(s, s', w) {
    } else if i: nat :| DeleteStep(s, s', i) {
      DeleteWaits(s, s', i);
    } else {
      FlushWaits(s, s');
    }
  }

  lemma DeleteWaits(s: Sys, s': Sys, i: nat)
    requires WaitsInside(s) && DeleteStep(s, s', i)
    ensures WaitsInside(s')
  {
    hide FirstMatch, NoMatch;
  }

  lemma FlushWaits(s: Sys, s': Sys)
    requires WaitsInside(s) && FlushStep(s, s')
    ensures WaitsInside(s')
  {
  }

  lemma {:induction false} RunWaits(tr: seq<Sys>, i: nat)
    requires Run(tr) && i < |tr|
    ensures WaitsInside(tr[i])
  {
    hide Next, WaitsInside;
    if i == 0 {
      NobodyWaits(tr[0]);
    } else {
      RunWaits(tr, i - 1);
      assert Next(tr[i-1], tr[i-1+1]);
      NextWaits(tr[i-1], tr[i]);
    }
  }

  lemma NobodyWaits(s: Sys)
    requires Init(s)
    ensures WaitsInside(s)
  {
  }

  /** A queued entry can be freed as soon as the readers it waits for have left. */
  lemma CanFree(tr: seq<Sys>, i: nat, x: Addr)
    requires Run(tr) && i < |tr| && x in tr[i].pending
    requires forall t | t in tr[i].pending[x] && t in tr[i].readers :: !Inside(tr[i].readers[t].r)
    ensures exists s' :: FreeStep(tr[i], s', x)
  {
    var s := tr[i];
    RunWaits(tr, i);
    assert s.pending[x] == {};
    var s' := s.(pending := s.pending - {x}, freed := s.freed + {x});
    assert FreeStep(s, s', x);
  }
}
