/** The RCU walk of hook_func against a writer that adds, deletes and flushes
    rules message by message, as a state machine over single pointer stores and loads. */
module RcuModel {
  import opened Seqs

  type Addr = nat
  type Key = nat
  type Tid = nat

  /** A next pointer: the ring's own head, or an entry. */
  datatype Link = Head | To(a: Addr)

  datatype Dir = Input | Output

  datatype PerDir<T> = PerDir(input: T, output: T) {
    function At(d: Dir): T { if d.Input? then input else output }
    function With(d: Dir, v: T): PerDir<T> {
      if d.Input? then PerDir(v, output) else PerDir(input, v)
    }
  }

  /** The chain an entry belongs to; a rule of any other chain is only on full_list. */
  datatype Place = Chain(d: Dir) | Nowhere

  /** One filter_rule_list allocation. `pub` is the instant it was published on
      its chain and `gone` the instant it was unlinked; 0 means not yet. `rank` tells
      where on the chain it was published: above what it was put behind, below what it
      was put before. All three are history: no step's outcome depends on them. */
  datatype Entry = Entry(key: Key, place: Place, next: Link, pub: nat, gone: nat, rank: real)

  /** Where a packet traversal stands: outside the read-side section, inside it
      before the first load, on an entry, back at the head, or out again.
      `start` and `visited` are history, except that the last visited entry is
      the loop cursor. */
  datatype Reader =
    | Outside
    | Before(d: Dir, start: nat)
    | On(d: Dir, start: nat, visited: seq<Addr>)
    | AtHead(d: Dir, start: nat, visited: seq<Addr>)
    | Left(d: Dir, start: nat, visited: seq<Addr>, decided: bool)

  /** A traversal and its read-lock nesting. */
  datatype Thread = Thread(r: Reader, depth: nat)

  /** The one message the writer is working on; nl_mutex admits one at a time. */
  datatype Writer =
    | Idle
    | Adding(a: Addr)
    | DelInput(k: Key) | DelOutput(k: Key) | DelFull(k: Key)
    | FlushInput | FlushOutput | FlushFull

  datatype Sys = Sys(
    clock: nat,
    mem: map<Addr, Entry>,
    first: PerDir<Link>,
    chain: PerDir<seq<Addr>>,
    full: seq<Addr>,
    pending: map<Addr, set<Tid>>,
    freed: set<Addr>,
    readers: map<Tid, Thread>,
    writer: Writer)

  predicate Inside(r: Reader) { r.Before? || r.On? || r.AtHead? }

  function Here(r: Reader): Addr
    requires r.On? && r.visited != []
  {
    r.visited[|r.visited| - 1]
  }

  ghost predicate Init(s: Sys) {
    && s.clock == 1 && s.mem == map[] && s.full == [] && s.pending == map[] && s.freed == {}
    && s.first == PerDir(Head, Head) && s.chain == PerDir([], [])
    && (forall t | t in s.readers :: s.readers[t] == Thread(Outside, 0))
    && s.writer == Idle
  }

  // ----- writer steps -----

  /** MSG_ADD_RULE past the duplicate check: allocate, copy, link on full_list. */
  ghost predicate StartAdd(s: Sys, s': Sys, a: Addr, k: Key, p: Place) {
    && s.writer.Idle? && a !in s.mem
    && (forall b | b in s.full :: b in s.mem && s.mem[b].key != k)
    && s' == s.(clock := s.clock + 1, mem := s.mem[a := Entry(k, p, Head, 0, 0, 0.0)],
                full := s.full + [a], writer := if p.Chain? then Adding(a) else Idle)
  }

  function LinkAt(c: seq<Addr>, i: nat): Link {
    if i < |c| then To(c[i]) else Head
  }

  function InsertAt(c: seq<Addr>, i: nat, a: Addr): seq<Addr>
    requires i <= |c|
  {
    c[..i] + [a] + c[i..]
  }

  /** `r` lies between the ranks around position `i`. */
  predicate Between(s: Sys, c: seq<Addr>, i: nat, r: real)
    requires i <= |c|
  {
    && r > 0.0
    && (i > 0 ==> c[i-1] in s.mem && s.mem[c[i-1]].rank < r)
    && (i < |c| ==> c[i] in s.mem && r < s.mem[c[i]].rank)
  }

  /** list_add_tail_rcu on the chain, before its i-th entry or, as in the default build,
      before the head: one store makes the entry visible. */
  ghost predicate Publish(s: Sys, s': Sys, i: nat, r: real) {
    && s.writer.Adding? && s.writer.a in s.mem && s.mem[s.writer.a].place.Chain?
    && var a := s.writer.a;
    && var d := s.mem[a].place.d;
    && var c := s.chain.At(d);
    && i <= |c| && Between(s, c, i, r)
    && var m := s.mem[a := s.mem[a].(next := LinkAt(c, i), pub := s.clock, rank := r)];
    && s' == s.(clock := s.clock + 1,
                mem := if i == 0 then m else m[c[i-1] := s.mem[c[i-1]].(next := To(a))],
                first := if i == 0 then s.first.With(d, To(a)) else s.first,
                chain := s.chain.With(d, InsertAt(c, i, a)),
                writer := Idle)
  }

  /** list_del_rcu of the i-th chain entry: the predecessor skips it, the entry
      itself keeps its next pointer. */
  ghost predicate Unlink(s: Sys, s': Sys, d: Dir, i: nat, w: Writer) {
    && var c := s.chain.At(d);
    && i < |c| && c[i] in s.mem && (i > 0 ==> c[i-1] in s.mem)
    && var x := c[i];
    && var m := s.mem[x := s.mem[x].(gone := s.clock)];
    && s' == s.(clock := s.clock + 1,
                mem := if i == 0 then m else m[c[i-1] := s.mem[c[i-1]].(next := s.mem[x].next)],
                first := if i == 0 then s.first.With(d, s.mem[x].next) else s.first,
                chain := s.chain.With(d, RemoveAt(c, i)),
                writer := w)
  }

  /** list_del_rcu from full_list, then call_rcu: the free waits for every reader
      that is inside a section at this instant. */
  ghost predicate Retire(s: Sys, s': Sys, i: nat) {
    && i < |s.full|
    && s' == s.(clock := s.clock + 1, full := RemoveAt(s.full, i),
                pending := s.pending[s.full[i] := set t | t in s.readers && Inside(s.readers[t].r)])
  }

  ghost predicate NoMatch(s: Sys, c: seq<Addr>, k: Key) {
    forall j | 0 <= j < |c| :: c[j] in s.mem && s.mem[c[j]].key != k
  }

  ghost predicate FirstMatch(s: Sys, c: seq<Addr>, k: Key, i: nat) {
    i < |c| && c[i] in s.mem && s.mem[c[i]].key == k && NoMatch(s, c[..i], k)
  }

  ghost predicate DeleteStep(s: Sys, s': Sys, i: nat) {
    match s.writer
    case DelInput(k) =>
      || (FirstMatch(s, s.chain.input, k, i) && Unlink(s, s', Input, i, DelOutput(k)))
      || (NoMatch(s, s.chain.input, k) && s' == s.(writer := DelOutput(k)))
    case DelOutput(k) =>
      || (FirstMatch(s, s.chain.output, k, i) && Unlink(s, s', Output, i, DelFull(k)))
      || (NoMatch(s, s.chain.output, k) && s' == s.(writer := DelFull(k)))
    case DelFull(k) =>
      || (FirstMatch(s, s.full, k, i) && Retire(s, s', i))
      || (NoMatch(s, s.full, k) && s' == s.(writer := Idle))
    case _ => false
  }

  ghost predicate FlushStep(s: Sys, s': Sys) {
    match s.writer
    case FlushInput =>
      if s.chain.input != [] then Unlink(s, s', Input, 0, FlushInput)
      else s' == s.(writer := FlushOutput)
    case FlushOutput =>
      if s.chain.output != [] then Unlink(s, s', Output, 0, FlushOutput)
      else s' == s.(writer := FlushFull)
    case FlushFull =>
      if s.full != [] then Retire(s, s', 0)
      else s' == s.(writer := Idle)
    case _ => false
  }

  ghost predicate Accept(s: Sys, s': Sys, w: Writer) {
    s.writer.Idle? && (w.DelInput? || w.FlushInput?) && s' == s.(writer := w)
  }

  ghost predicate WriterStep(s: Sys, s': Sys) {
    || (exists a, k, p :: StartAdd(s, s', a, k, p))
    || (exists i: nat, r: real :: Publish(s, s', i, r))
    || (exists w :: Accept(s, s', w))
    || (exists i: nat :: DeleteStep(s, s', i))
    || FlushStep(s, s')
  }

  /** free_rule runs once the grace period of `x` is over. */
  ghost predicate FreeStep(s: Sys, s': Sys, x: Addr) {
    && x in s.pending && s.pending[x] == {}
    && s' == s.(pending := s.pending - {x}, freed := s.freed + {x})
  }

  // ----- reader steps -----

  ghost predicate Lock(s: Sys, s': Sys, t: Tid, d: Dir) {
    && t in s.readers && !Inside(s.readers[t].r)
    && s' == s.(clock := s.clock + 1,
                readers := s.readers[t := Thread(Before(d, s.clock), s.readers[t].depth + 1)])
  }

  function Arrive(d: Dir, start: nat, visited: seq<Addr>, l: Link): Reader {
    if l.Head? then AtHead(d, start, visited) else On(d, start, visited + [l.a])
  }

  predicate CanLoad(s: Sys, r: Reader) {
    r.Before? || (r.On? && r.visited != [] && Here(r) in s.mem)
  }

  function AfterLoad(s: Sys, r: Reader): Reader
    requires CanLoad(s, r)
  {
    if r.Before? then Arrive(r.d, r.start, [], s.first.At(r.d))
    else Arrive(r.d, r.start, r.visited, s.mem[Here(r)].next)
  }

  /** The pointer load of list_for_each_entry_rcu. */
  ghost predicate Load(s: Sys, s': Sys, t: Tid) {
    && t in s.readers && CanLoad(s, s.readers[t].r)
    && s' == s.(readers := s.readers[t := s.readers[t].(r := AfterLoad(s, s.readers[t].r))])
  }

  /** rcu_read_unlock on either way out: goto_target at a deciding entry, or the
      end of the loop. The entry's fields may change under the reader, so whether
      an entry decides is left open. */
  ghost predicate Unlock(s: Sys, s': Sys, t: Tid) {
    && t in s.readers
    && var th := s.readers[t];
    && th.depth > 0 && (th.r.On? || th.r.AtHead?)
    && s' == s.(readers := s.readers[t := Thread(Left(th.r.d, th.r.start, th.r.visited, th.r.On?), th.depth - 1)],
                pending := map x | x in s.pending :: s.pending[x] - {t})
  }

  ghost predicate ReaderStep(s: Sys, s': Sys, t: Tid) {
    || (exists d :: Lock(s, s', t, d))
    || Load(s, s', t)
    || Unlock(s, s', t)
  }

  ghost predicate Next(s: Sys, s': Sys) {
    || WriterStep(s, s')
    || (exists x :: FreeStep(s, s', x))
    || (exists t :: ReaderStep(s, s', t))
  }
}
