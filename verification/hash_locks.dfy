/** The _safe operations of base/hash_table.h under any number of threads: a table
    lock around hashing, one lock per bucket, all critical sections step by step. */
module HashLocks {
  import opened Seqs
  import opened TrxData
  import opened HashSpec

  type Tid = nat

  datatype Op = Ins(key: Key, ent: nat) | Look(key: Key) | Del(key: Key)

  /** Where a thread is: HashLock waits for the table lock, WantBucket for its bucket's. */
  datatype Pc =
    | Idle
    | HashLock(op: Op)
    | Hashing(op: Op)
    | HashUnlock(op: Op, n: nat)
    | WantBucket(op: Op, n: nat)
    | Scan(op: Op, n: nat, i: nat)
    | Found(op: Op, n: nat, i: nat)
    | Leaving(op: Op, n: nat, res: Option<nat>)

  /** Invocation, taking effect, and return of an operation. */
  datatype Event =
    | Inv(t: Tid, op: Op)
    | Eff(t: Tid, op: Op, res: Option<nat>)
    | Ret(t: Tid, op: Op, res: Option<nat>)

  datatype Sys = Sys(
    table: Table<nat>,
    tableLock: Option<Tid>,
    bucketLock: seq<Option<Tid>>,
    pc: map<Tid, Pc>,
    history: seq<Event>)

  /** memcmp over the stored key's length, as the locked lookup compares. */
  predicate StoredPrefix(stored: Key, key: Key) {
    |stored| <= |key| && key[..|stored|] == stored
  }

  predicate KeyMatches(op: Op, stored: Key) {
    if op.Look? then StoredPrefix(stored, op.key) else stored == op.key
  }

  function At(s: Sys, t: Tid, p: Pc): Sys { s.(pc := s.pc[t := p]) }

  function Log(s: Sys, e: Event): Sys { s.(history := s.history + [e]) }

  /** What the slot at the cursor, or the end of the bucket, leads to. */
  function ScanNext(s: Sys, t: Tid, op: Op, n: nat, i: nat): Sys
    requires n < |s.table| && i <= |s.table[n]|
  {
    var b := s.table[n];
    match op
    case Ins(k, e) =>
      Log(At(s.(table := s.table[n := [Slot(k, e)] + b]), t, Leaving(op, n, None)), Eff(t, op, None))
    case _ =>
      if i == |b| then Log(At(s, t, Leaving(op, n, None)), Eff(t, op, None))
      else if !KeyMatches(op, b[i].key) then At(s, t, Scan(op, n, i + 1))
      else if op.Del? then At(s, t, Found(op, n, i))
      else Log(At(s, t, Leaving(op, n, Some(b[i].ent))), Eff(t, op, Some(b[i].ent)))
  }

  ghost predicate Call(s: Sys, s': Sys, h: HashFn, len: nat, t: Tid, op: Op) {
    && t in s.pc && s.pc[t].Idle? && |op.key| == len && s.table != []
    && s' == Log(At(s, t, if op.Del? then WantBucket(op, Bucket(h, op.key, |s.table|)) else HashLock(op)), Inv(t, op))
  }

  ghost predicate Step(s: Sys, s': Sys, h: HashFn, t: Tid) {
    && t in s.pc
    && match s.pc[t]
       case Idle => false
       case HashLock(op) =>
         s.tableLock.None? && s' == At(s, t, Hashing(op)).(tableLock := Some(t))
       case Hashing(op) =>
         s.table != [] && s' == At(s, t, HashUnlock(op, Bucket(h, op.key, |s.table|)))
       case HashUnlock(op, n) =>
         s' == At(s, t, WantBucket(op, n)).(tableLock := None)
       case WantBucket(op, n) =>
         && n < |s.bucketLock| && s.bucketLock[n].None?
         && s' == At(s, t, Scan(op, n, 0)).(bucketLock := s.bucketLock[n := Some(t)])
       case Scan(op, n, i) =>
         n < |s.table| && i <= |s.table[n]| && s' == ScanNext(s, t, op, n, i)
       case Found(op, n, i) =>
         && n < |s.table| && i < |s.table[n]|
         && var e := s.table[n][i].ent;
         && s' == Log(At(s.(table := s.table[n := RemoveAt(s.table[n], i)]), t, Leaving(op, n, Some(e))),
           Eff(t, op, Some(e)))
       case Leaving(op, n, res) =>
         && n < |s.bucketLock|
         && s' == Log(At(s, t, Idle).(bucketLock := s.bucketLock[n := None]), Ret(t, op, res))
  }

  ghost predicate Next(s: Sys, s': Sys, h: HashFn, len: nat) {
    || (exists t, op :: Call(s, s', h, len, t, op))
    || (exists t :: Step(s, s', h, t))
  }

  ghost predicate Init(s: Sys, h: HashFn, len: nat) {
    && Placed(s.table, h) && KeysLong(s.table, len)
    && s.tableLock.None? && |s.bucketLock| == |s.table| && (forall n | 0 <= n < |s.bucketLock| :: s.bucketLock[n].None?)
    && (forall t | t in s.pc :: s.pc[t].Idle?)
    && s.history == []
  }

  // ----- the sequential table -----

  function Apply(t: Table<nat>, h: HashFn, op: Op): (Table<nat>, Option<nat>)
    requires t != []
  {
    match op
    case Ins(k, e) => (Insert(t, h, k, e), None)
    case Look(k) => (t, Lookup(t, h, k))
    case Del(k) => (Delete(t, h, k), Lookup(t, h, k))
  }

  /** The operations, in the order they took effect, run one after the other from `from`,
      give the results they gave and end in `to`. */
  ghost predicate Sequential(from: Table<nat>, h: HashFn, hist: seq<Event>, to: Table<nat>)
    requires from != []
    decreases |hist|
  {
    if hist == [] then from == to
    else
      var last := hist[|hist|-1];
      var rest := hist[..|hist|-1];
      if last.Eff? then
        exists mid: Table<nat> ::
          mid != [] && Sequential(from, h, rest, mid) && Apply(mid, h, last.op) == (to, last.res)
      else Sequential(from, h, rest, to)
  }

  /** One thread's events: operations one at a time, each invoked, then taking effect
      once, then returning the result it took effect with. */
  datatype Phase = Quiet | Invoked(op: Op) | Effected(op: Op, res: Option<nat>) | Broken

  function PhaseOf(hist: seq<Event>, t: Tid): Phase
  {
    if hist == [] then Quiet
    else
      var e := hist[|hist|-1];
      var p := PhaseOf(hist[..|hist|-1], t);
      if e.t != t then p
      else match e
           case Inv(_, op) => if p.Quiet? then Invoked(op) else Broken
           case Eff(_, op, res) => if p == Invoked(op) then Effected(op, res) else Broken
           case Ret(_, op, res) => if p == Effected(op, res) then Quiet else Broken
  }

  // ----- the invariant -----

  ghost predicate KeysLong(t: Table<nat>, len: nat) {
    forall n, i | 0 <= n < |t| && 0 <= i < |t[n]| :: |t[n][i].key| == len
  }

  predicate HoldsTable(p: Pc) { p.Hashing? || p.HashUnlock? }

  predicate HoldsBucket(p: Pc, n: nat) { (p.Scan? || p.Found? || p.Leaving?) && p.n == n }

  ghost predicate LocksOk(s: Sys) {
    && |s.bucketLock| == |s.table|
    && (forall t | t in s.pc :: s.tableLock == Some(t) <==> HoldsTable(s.pc[t]))
    && (forall t, n | t in s.pc && 0 <= n < |s.bucketLock| :: s.bucketLock[n] == Some(t) <==> HoldsBucket(s.pc[t], n))
    && (s.tableLock.Some? ==> s.tableLock.value in s.pc)
    && (forall n | 0 <= n < |s.bucketLock| && s.bucketLock[n].Some? :: s.bucketLock[n].value in s.pc)
  }

  /** No stored key before the cursor is the one looked for. */
  predicate Unmatched(b: seq<Slot<nat>>, k: Key, i: nat)
    requires i <= |b|
  {
    forall j | 0 <= j < i :: b[j].key != k
  }

  ghost predicate PcOk(s: Sys, h: HashFn, len: nat, p: Pc, ph: Phase)
    requires s.table != []
  {
    && (p.Idle? || |p.op.key| == len)
    && (p.HashUnlock? || p.WantBucket? || p.Scan? || p.Found? || p.Leaving? ==> p.n == Bucket(h, p.op.key, |s.table|))
    && (p.Scan? ==> p.i <= |s.table[p.n]| && Unmatched(s.table[p.n], p.op.key, p.i))
    && (p.Found? ==>
          && p.op.Del? && p.i < |s.table[p.n]| && Unmatched(s.table[p.n], p.op.key, p.i)
          && s.table[p.n][p.i].key == p.op.key)
    && ph == (if p.Idle? then Quiet else if p.Leaving? then Effected(p.op, p.res) else Invoked(p.op))
  }

  ghost predicate Invariant(s: Sys, h: HashFn, len: nat, from: Table<nat>) {
    && from != [] && s.table != [] && Placed(s.table, h) && KeysLong(s.table, len)
    && LocksOk(s)
    && (forall t | t in s.pc :: PcOk(s, h, len, s.pc[t], PhaseOf(s.history, t)))
    && Sequential(from, h, s.history, s.table)
  }

  lemma InitInvariant(s: Sys, h: HashFn, len: nat)
    requires Init(s, h, len)
    ensures Invariant(s, h, len, s.table)
  {
  }

  lemma SamePrefix(a: Key, b: Key)
    requires |a| == |b|
    ensures StoredPrefix(a, b) <==> a == b
  {
  }

  // ----- every step keeps it -----

  predicate Moves(s: Sys, s': Sys, t: Tid) {
    t in s.pc && t in s'.pc && s'.pc == s.pc[t := s'.pc[t]] && |s'.table| == |s.table|
  }

  /** A move that takes or releases nothing. */
  lemma SameLocks(s: Sys, s': Sys, t: Tid)
    requires LocksOk(s) && Moves(s, s', t) && s'.tableLock == s.tableLock && s'.bucketLock == s.bucketLock
    requires HoldsTable(s'.pc[t]) == HoldsTable(s.pc[t])
    requires forall n | 0 <= n < |s.bucketLock| :: HoldsBucket(s'.pc[t], n) == HoldsBucket(s.pc[t], n)
    ensures LocksOk(s')
  {
    hide HoldsTable, HoldsBucket;
  }

  lemma ScanLocks(s: Sys, s': Sys, h: HashFn, t: Tid)
    requires LocksOk(s) && Step(s, s', h, t) && s.pc[t].Scan?
    ensures LocksOk(s') && Moves(s, s', t)
  {
    hide LocksOk;
    assert Moves(s, s', t) && s'.tableLock == s.tableLock && s'.bucketLock == s.bucketLock;
    SameLocks(s, s', t);
  }

  /** A move that takes the free table lock, or releases the held one. */
  lemma TableLockMoves(s: Sys, s': Sys, t: Tid)
    requires LocksOk(s) && Moves(s, s', t) && s'.bucketLock == s.bucketLock
    requires HoldsTable(s'.pc[t]) != HoldsTable(s.pc[t])
    requires if HoldsTable(s'.pc[t]) then s.tableLock.None? && s'.tableLock == Some(t) else s'.tableLock.None?
    requires forall n | 0 <= n < |s.bucketLock| :: HoldsBucket(s'.pc[t], n) == HoldsBucket(s.pc[t], n)
    ensures LocksOk(s')
  {
    hide HoldsTable, HoldsBucket;
  }

  /** A move that takes the free lock of one bucket, or releases it. */
  lemma BucketLockMoves(s: Sys, s': Sys, t: Tid, n: nat)
    requires LocksOk(s) && Moves(s, s', t) && s'.tableLock == s.tableLock && n < |s.bucketLock|
    requires HoldsTable(s'.pc[t]) == HoldsTable(s.pc[t]) && HoldsBucket(s'.pc[t], n) != HoldsBucket(s.pc[t], n)
    requires if HoldsBucket(s'.pc[t], n)
             then s.bucketLock[n].None? && s'.bucketLock == s.bucketLock[n := Some(t)]
             else s'.bucketLock == s.bucketLock[n := None]
    requires forall m | 0 <= m < |s.bucketLock| && m != n :: HoldsBucket(s'.pc[t], m) == HoldsBucket(s.pc[t], m)
    ensures LocksOk(s')
  {
    hide HoldsTable, HoldsBucket;
  }

  lemma StepLocks(s: Sys, s': Sys, h: HashFn, t: Tid)
    requires LocksOk(s) && Step(s, s', h, t)
    ensures LocksOk(s') && Moves(s, s', t)
  {
    match s.pc[t]
    case HashLock(op) => TableLockMoves(s, s', t);
    case HashUnlock(op, n) => TableLockMoves(s, s', t);
    case WantBucket(op, n) => BucketLockMoves(s, s', t, n);
    case Leaving(op, n, res) => BucketLockMoves(s, s', t, n);
    case Scan(op, n, i) => ScanLocks(s, s', h, t);
    case _ => SameLocks(s, s', t);
  }

  lemma CallLocks(s: Sys, s': Sys, h: HashFn, len: nat, t: Tid, op: Op)
    requires LocksOk(s) && Call(s, s', h, len, t, op)
    ensures LocksOk(s') && Moves(s, s', t)
  {
  }

  lemma PhaseSnoc(hist: seq<Event>, e: Event, t: Tid)
    ensures var p := PhaseOf(hist, t);
      PhaseOf(hist + [e], t) ==
        if e.t != t then p
        else match e
             case Inv(_, op) => if p.Quiet? then Invoked(op) else Broken
             case Eff(_, op, res) => if p == Invoked(op) then Effected(op, res) else Broken
             case Ret(_, op, res) => if p == Effected(op, res) then Quiet else Broken
  {
    assert (hist + [e])[..|hist|] == hist;
  }

  lemma SequentialSnoc(from: Table<nat>, h: HashFn, hist: seq<Event>, mid: Table<nat>, e: Event, to: Table<nat>)
    requires from != [] && mid != [] && Sequential(from, h, hist, mid)
    requires if e.Eff? then Apply(mid, h, e.op) == (to, e.res) else to == mid
    ensures Sequential(from, h, hist + [e], to)
  {
    assert (hist + [e])[..|hist|] == hist;
  }

  lemma {:induction false} LookupAt(b: seq<Slot<nat>>, k: Key, i: nat)
    requires i <= |b| && Unmatched(b, k, i) && (i < |b| ==> b[i].key == k)
    ensures LookupIn(b, k) == if i < |b| then Some(b[i].ent) else None
    ensures RemoveFirst(b, HasKey(k)) == if i < |b| then RemoveAt(b, i) else b
  {
    RemoveFirstAt(b, HasKey(k), i);
    if i == 0 {
    } else {
      assert forall j | 0 <= j < i - 1 :: b[1..][j] == b[j+1];
      LookupAt(b[1..], k, i - 1);
    }
  }

  lemma ApplyAt(t: Table<nat>, h: HashFn, k: Key, i: nat)
    requires t != []
    requires var b := t[Bucket(h, k, |t|)]; i <= |b| && Unmatched(b, k, i) && (i < |b| ==> b[i].key == k)
    ensures var n := Bucket(h, k, |t|);
      && Lookup(t, h, k) == (if i < |t[n]| then Some(t[n][i].ent) else None)
      && Delete(t, h, k) == (if i < |t[n]| then t[n := RemoveAt(t[n], i)] else t)
  {
    LookupAt(t[Bucket(h, k, |t|)], k, i);
  }

  lemma InsertLong(t: Table<nat>, h: HashFn, k: Key, e: nat, len: nat)
    requires t != [] && KeysLong(t, len) && |k| == len
    ensures KeysLong(Insert(t, h, k, e), len)
  {
  }

  lemma RemoveLong(t: Table<nat>, h: HashFn, n: nat, i: nat, len: nat)
    requires Placed(t, h) && KeysLong(t, len) && n < |t| && i < |t[n]|
    ensures KeysLong(t[n := RemoveAt(t[n], i)], len) && Placed(t[n := RemoveAt(t[n], i)], h)
  {
  }

  /** What the owner of a bucket does there leaves every other thread's facts standing. */
  lemma OtherKept(s: Sys, s': Sys, h: HashFn, len: nat, t: Tid, u: Tid, ph: Phase)
    requires s.table != [] && LocksOk(s) && Moves(s, s', t) && u in s.pc && u != t
    requires PcOk(s, h, len, s.pc[u], ph)
    requires forall n | 0 <= n < |s.table| :: s'.table[n] == s.table[n] || s.bucketLock[n] == Some(t)
    ensures PcOk(s', h, len, s'.pc[u], ph)
  {
    var p := s.pc[u];
    if p.Scan? || p.Found? {
      assert HoldsBucket(p, p.n);
      assert s'.table[p.n] == s.table[p.n];
    }
  }

  /** The stepping thread's share of the invariant, after a step that logs nothing. */
  ghost predicate Advanced(s: Sys, s': Sys, h: HashFn, len: nat, t: Tid, from: Table<nat>) {
    && s'.table != [] && Placed(s'.table, h) && KeysLong(s'.table, len) && t in s'.pc
    && PcOk(s', h, len, s'.pc[t], PhaseOf(s'.history, t))
    && from != [] && Sequential(from, h, s'.history, s'.table)
    && (forall u | u != t :: PhaseOf(s'.history, u) == PhaseOf(s.history, u))
  }

  lemma Logged(s: Sys, s': Sys, h: HashFn, from: Table<nat>, e: Event)
    requires from != [] && s.table != [] && Sequential(from, h, s.history, s.table)
    requires s'.history == s.history + [e]
    requires if e.Eff? then Apply(s.table, h, e.op) == (s'.table, e.res) else s'.table == s.table
    ensures Sequential(from, h, s'.history, s'.table)
    ensures forall u | u != e.t :: PhaseOf(s'.history, u) == PhaseOf(s.history, u)
  {
    SequentialSnoc(from, h, s.history, s.table, e, s'.table);
    hide PhaseOf, Sequential, Apply;
    forall u | u != e.t ensures PhaseOf(s'.history, u) == PhaseOf(s.history, u) { PhaseSnoc(s.history, e, u); }
  }

  lemma CallAdvances(s: Sys, s': Sys, h: HashFn, len: nat, t: Tid, op: Op, from: Table<nat>)
    requires Invariant(s, h, len, from) && Call(s, s', h, len, t, op)
    ensures Advanced(s, s', h, len, t, from)
  {
    Logged(s, s', h, from, Inv(t, op));
    PhaseSnoc(s.history, Inv(t, op), t);
    hide PhaseOf, Sequential, LocksOk, KeysLong, Placed;
  }

  lemma KeyLong(t: Table<nat>, len: nat, n: nat, i: nat)
    requires KeysLong(t, len) && n < |t| && i < |t[n]|
    ensures |t[n][i].key| == len
  {
  }

  /** Up to the bucket lock, and past slots with other keys, nothing takes effect. */
  lemma SilentAdvances(s: Sys, s': Sys, h: HashFn, len: nat, t: Tid, from: Table<nat>)
    requires Invariant(s, h, len, from) && Step(s, s', h, t) && s'.history == s.history
    ensures s'.table == s.table && Advanced(s, s', h, len, t, from)
  {
    hide PhaseOf, Sequential, LocksOk, Placed, KeysLong;
    assert PcOk(s, h, len, s.pc[t], PhaseOf(s.history, t));
    match s.pc[t]
    case Scan(op, n, i) =>
      assert !op.Ins? && i < |s.table[n]|;
      KeyLong(s.table, len, n, i);
      SamePrefix(s.table[n][i].key, op.key);
    case _ =>
  }

  /** An insertion takes effect at the bucket's head, a lookup at the slot it answers, and
      a lookup or delete that finds nothing at the end of the bucket. */
  lemma ScanAdvances(s: Sys, s': Sys, h: HashFn, len: nat, t: Tid, from: Table<nat>)
    requires Invariant(s, h, len, from) && Step(s, s', h, t) && s.pc[t].Scan? && s'.history != s.history
    ensures Advanced(s, s', h, len, t, from)
  {
    var p := s.pc[t];
    var e := s'.history[|s.history|];
    assert PcOk(s, h, len, p, PhaseOf(s.history, t));
    if p.op.Ins? {
      InsertPlaced(s.table, h, p.op.key, p.op.ent);
      InsertLong(s.table, h, p.op.key, p.op.ent, len);
    } else {
      if p.i < |s.table[p.n]| { SamePrefix(s.table[p.n][p.i].key, p.op.key); }
      ApplyAt(s.table, h, p.op.key, p.i);
    }
    assert s'.history == s.history + [e] && e.Eff? && e.t == t && e.op == p.op;
    PhaseSnoc(s.history, e, t);
    hide PhaseOf, Sequential, LocksOk, Placed, Bucket, Unmatched;
    Logged(s, s', h, from, e);
  }

  lemma FoundAdvances(s: Sys, s': Sys, h: HashFn, len: nat, t: Tid, from: Table<nat>)
    requires Invariant(s, h, len, from) && Step(s, s', h, t) && s.pc[t].Found?
    ensures Advanced(s, s', h, len, t, from)
  {
    var p := s.pc[t];
    var e := s'.history[|s.history|];
    assert PcOk(s, h, len, p, PhaseOf(s.history, t));
    ApplyAt(s.table, h, p.op.key, p.i);
    RemoveLong(s.table, h, p.n, p.i, len);
    PhaseSnoc(s.history, e, t);
    hide PhaseOf, Sequential, LocksOk, Placed, Bucket, Unmatched;
    Logged(s, s', h, from, e);
  }

  lemma LeavingAdvances(s: Sys, s': Sys, h: HashFn, len: nat, t: Tid, from: Table<nat>)
    requires Invariant(s, h, len, from) && Step(s, s', h, t) && s.pc[t].Leaving?
    ensures s'.table == s.table && Advanced(s, s', h, len, t, from)
  {
    var p := s.pc[t];
    PhaseSnoc(s.history, Ret(t, p.op, p.res), t);
    hide PhaseOf, Sequential, LocksOk, Placed, KeysLong, Bucket;
    Logged(s, s', h, from, Ret(t, p.op, p.res));
  }

  lemma Preserved(s: Sys, s': Sys, h: HashFn, len: nat, t: Tid, from: Table<nat>)
    requires Invariant(s, h, len, from) && Moves(s, s', t) && LocksOk(s') && Advanced(s, s', h, len, t, from)
    requires forall n | 0 <= n < |s.table| :: s'.table[n] == s.table[n] || s.bucketLock[n] == Some(t)
    ensures Invariant(s', h, len, from)
  {
    hide PhaseOf, Sequential, LocksOk, Placed, KeysLong, PcOk;
    forall u | u in s'.pc ensures PcOk(s', h, len, s'.pc[u], PhaseOf(s'.history, u)) {
      if u != t { OtherKept(s, s', h, len, t, u, PhaseOf(s.history, u)); }
    }
  }

  lemma CallInvariant(s: Sys, s': Sys, h: HashFn, len: nat, t: Tid, op: Op, from: Table<nat>)
    requires Invariant(s, h, len, from) && Call(s, s', h, len, t, op)
    ensures Invariant(s', h, len, from)
  {
    CallLocks(s, s', h, len, t, op);
    CallAdvances(s, s', h, len, t, op, from);
    Preserved(s, s', h, len, t, from);
  }

  lemma StepInvariant(s: Sys, s': Sys, h: HashFn, len: nat, t: Tid, from: Table<nat>)
    requires Invariant(s, h, len, from) && Step(s, s', h, t)
    ensures Invariant(s', h, len, from)
  {
    StepLocks(s, s', h, t);
    hide PhaseOf, Sequential, Placed, KeysLong, PcOk;
    var p := s.pc[t];
    if p.Leaving? {
      LeavingAdvances(s, s', h, len, t, from);
    } else if p.Found? {
      FoundAdvances(s, s', h, len, t, from);
      assert HoldsBucket(p, p.n);
    } else if s'.history == s.history {
      SilentAdvances(s, s', h, len, t, from);
    } else {
      ScanAdvances(s, s', h, len, t, from);
      assert HoldsBucket(p, p.n);
    }
    Preserved(s, s', h, len, t, from);
  }

  // ----- whole runs -----

  ghost predicate Interleaving(run: seq<Sys>, h: HashFn, len: nat) {
    && run != [] && Init(run[0], h, len) && run[0].table != []
    && forall i | 0 <= i < |run| - 1 :: Next(run[i], run[i+1], h, len)
  }

  lemma {:induction false} RunInvariant(run: seq<Sys>, h: HashFn, len: nat, i: nat)
    requires Interleaving(run, h, len) && i < |run|
    ensures Invariant(run[i], h, len, run[0].table)
  {
    hide Invariant, Init, Step, Call;
    if i == 0 {
      InitInvariant(run[0], h, len);
    } else {
      RunInvariant(run, h, len, i - 1);
      var s, s' := run[i-1], run[i];
      assert Next(s, s', h, len);
      if t, op :| Call(s, s', h, len, t, op) {
        CallInvariant(s, s', h, len, t, op, run[0].table);
      } else {
        var t :| Step(s, s', h, t);
        StepInvariant(s, s', h, len, t, run[0].table);
      }
    }
  }

  /** Every interleaving of locked operations is some sequential run: in the order in which
      they took effect, each between its own invocation and return, the operations give the
      results and the contents they give one after the other. */
  lemma Linearizable(run: seq<Sys>, h: HashFn, len: nat, i: nat)
    requires Interleaving(run, h, len) && i < |run|
    ensures Sequential(run[0].table, h, run[i].history, run[i].table)
    ensures forall t | t in run[i].pc :: !PhaseOf(run[i].history, t).Broken?
    ensures forall t | t in run[i].pc && run[i].pc[t].Idle? :: PhaseOf(run[i].history, t).Quiet?
  {
    RunInvariant(run, h, len, i);
    hide Sequential, PhaseOf, Interleaving;
    assert forall t | t in run[i].pc :: PcOk(run[i], h, len, run[i].pc[t], PhaseOf(run[i].history, t));
  }

  predicate TableLockedBy(s: Sys, t: Tid) { s.tableLock == Some(t) }

  predicate BucketLockedBy(s: Sys, n: nat, t: Tid) { n < |s.bucketLock| && s.bucketLock[n] == Some(t) }

  /** No thread ever holds two locks, and one that has returned holds none. */
  lemma OneLockAtATime(run: seq<Sys>, h: HashFn, len: nat, i: nat, t: Tid)
    requires Interleaving(run, h, len) && i < |run| && t in run[i].pc
    ensures forall n: nat :: !(TableLockedBy(run[i], t) && BucketLockedBy(run[i], n, t))
    ensures forall n: nat, m: nat :: BucketLockedBy(run[i], n, t) && BucketLockedBy(run[i], m, t) ==> n == m
    ensures run[i].pc[t].Idle? ==> !TableLockedBy(run[i], t) && forall n: nat :: !BucketLockedBy(run[i], n, t)
  {
    RunInvariant(run, h, len, i);
    hide Sequential, PhaseOf, Interleaving, PcOk, Placed, KeysLong;
  }

  /** The critical sections an operation has ahead of it. */
  function Stage(p: Pc): nat {
    match p
    case Idle => 0
    case Leaving(_, _, _) => 1
    case Found(_, _, _) => 2
    case Scan(_, _, _) => 3
    case WantBucket(_, _) => 4
    case HashUnlock(_, _) => 5
    case Hashing(_) => 6
    case HashLock(_) => 7
  }

  /** Every step brings its thread's operation on: a stage further, or past one slot with
      another key. It stays the same operation until it returns. */
  lemma StepAdvances(run: seq<Sys>, h: HashFn, len: nat, i: nat, s': Sys, t: Tid)
    requires Interleaving(run, h, len) && i < |run| && Step(run[i], s', h, t)
    ensures var p := run[i].pc[t];
      && t in s'.pc
      && var p' := s'.pc[t];
      && (if p'.Idle? then p.Leaving? else p'.op == p.op)
      && (Stage(p') < Stage(p) ||
          (p.Scan? && p' == Scan(p.op, p.n, p.i + 1) && s'.table == run[i].table
           && p.n < |s'.table| && p.i < |s'.table[p.n]| && s'.table[p.n][p.i].key != p.op.key))
  {
    RunInvariant(run, h, len, i);
    hide Interleaving, Sequential, PhaseOf, Placed, LocksOk;
    var s := run[i];
    var p := s.pc[t];
    assert PcOk(s, h, len, p, PhaseOf(s.history, t));
    if p.Scan? && p.i < |s.table[p.n]| {
      KeyLong(s.table, len, p.n, p.i);
      SamePrefix(s.table[p.n][p.i].key, p.op.key);
    }
  }

  /** A thread that has returned can call any operation, on a key of the table's length. */
  lemma CanCall(run: seq<Sys>, h: HashFn, len: nat, i: nat, t: Tid, op: Op)
    requires Interleaving(run, h, len) && i < |run| && t in run[i].pc && run[i].pc[t].Idle? && |op.key| == len
    ensures exists s' :: Call(run[i], s', h, len, t, op)
  {
    RunInvariant(run, h, len, i);
    hide Interleaving, Sequential, PhaseOf, Placed, LocksOk;
    var s := run[i];
    var s' := Log(At(s, t, if op.Del? then WantBucket(op, Bucket(h, op.key, |s.table|)) else HashLock(op)), Inv(t, op));
    assert Call(s, s', h, len, t, op);
  }

  ghost predicate CanStep(s: Sys, h: HashFn, t: Tid) { exists s' :: Step(s, s', h, t) }

  lemma HolderSteps(s: Sys, h: HashFn, len: nat, from: Table<nat>, t: Tid)
    requires Invariant(s, h, len, from) && t in s.pc && !s.pc[t].Idle?
    requires s.pc[t].HashLock? ==> s.tableLock.None?
    requires s.pc[t].WantBucket? ==> s.pc[t].n < |s.bucketLock| && s.bucketLock[s.pc[t].n].None?
    ensures CanStep(s, h, t)
  {
    hide Sequential, PhaseOf, Placed, KeysLong;
    assert PcOk(s, h, len, s.pc[t], PhaseOf(s.history, t));
    match s.pc[t]
    case HashLock(op) => assert Step(s, At(s, t, Hashing(op)).(tableLock := Some(t)), h, t);
    case Hashing(op) => assert Step(s, At(s, t, HashUnlock(op, Bucket(h, op.key, |s.table|))), h, t);
    case HashUnlock(op, n) => assert Step(s, At(s, t, WantBucket(op, n)).(tableLock := None), h, t);
    case WantBucket(op, n) => assert Step(s, At(s, t, Scan(op, n, 0)).(bucketLock := s.bucketLock[n := Some(t)]), h, t);
    case Scan(op, n, i) => assert Step(s, ScanNext(s, t, op, n, i), h, t);
    case Found(op, n, i) =>
      var e := s.table[n][i].ent;
      assert Step(s, Log(At(s.(table := s.table[n := RemoveAt(s.table[n], i)]), t, Leaving(op, n, Some(e))),
        Eff(t, op, Some(e))), h, t);
    case Leaving(op, n, res) =>
      assert Step(s, Log(At(s, t, Idle).(bucketLock := s.bucketLock[n := None]), Ret(t, op, res)), h, t);
  }

  /** No deadlock: while any operation is under way, some thread can take a step. */
  lemma SomeThreadSteps(run: seq<Sys>, h: HashFn, len: nat, i: nat, t: Tid)
    requires Interleaving(run, h, len) && i < |run| && t in run[i].pc && !run[i].pc[t].Idle?
    ensures exists u :: u in run[i].pc && CanStep(run[i], h, u)
  {
    var s, from := run[i], run[0].table;
    RunInvariant(run, h, len, i);
    hide Sequential, PhaseOf, Placed, KeysLong, CanStep, Interleaving;
    var p := s.pc[t];
    assert PcOk(s, h, len, p, PhaseOf(s.history, t));
    if p.HashLock? && s.tableLock.Some? {
      var u := s.tableLock.value;
      assert HoldsTable(s.pc[u]);
      HolderSteps(s, h, len, from, u);
    } else if p.WantBucket? && s.bucketLock[p.n].Some? {
      var u := s.bucketLock[p.n].value;
      assert HoldsBucket(s.pc[u], p.n);
      HolderSteps(s, h, len, from, u);
    } else {
      HolderSteps(s, h, len, from, t);
    }
  }
}
