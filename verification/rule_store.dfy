/** bf_module.c and the dispatcher of nl_int.c: the rule store behind the packet hook. */
module RuleStore {
  import opened Seqs
  import opened TrxData
  import opened HashSpec
  import opened RuleIndex
  import RuleLaws
  import RuleSpec

  /** The fields of every entry of a list, in list order. */
  function Rules(s: seq<Entry>): (r: seq<Rule>)
    reads s
    ensures |r| == |s|
  {
    if s == [] then [] else [s[0].Fr()] + Rules(s[1..])
  }

  lemma {:induction false} RulesAt(s: seq<Entry>, i: nat)
    requires i < |s|
    ensures Rules(s)[i] == s[i].Fr()
  {
    if i == 0 {
    } else {
      RulesAt(s[1..], i - 1);
    }
  }

  lemma {:induction false} RulesAppend(a: seq<Entry>, b: seq<Entry>)
    ensures Rules(a + b) == Rules(a) + Rules(b)
  {
    if a == [] {
      assert a + b == b;
    } else {
      RulesAppend(a[1..], b);
      assert (a + b)[1..] == a[1..] + b;
    }
  }

  /** Selecting entries by their fixed fields is selecting rules by theirs. */
  lemma {:induction false} RulesFilter(s: seq<Entry>, p: Entry -> bool, q: Rule -> bool)
    requires forall e | e in s :: p(e) == q(e.Fr())
    ensures Rules(Filter(s, p)) == Filter(Rules(s), q)
  {
    if s == [] {
    } else {
      RulesFilter(s[1..], p, q);
      RulesAppend(if p(s[0]) then [s[0]] else [], Filter(s[1..], p));
    }
  }

  /** list_for_each_entry_safe with a break: unlink the first entry with this key. */
  method UnlinkFirst(list: seq<Entry>, b: Base) returns (rest: seq<Entry>)
    ensures rest == RemoveFirst(list, WithKey(KeyBytes(b)))
  {
    var i := 0;
    while i < |list|
      invariant i <= |list|
      invariant forall j | 0 <= j < i :: !WithKey(KeyBytes(b))(list[j])
    {
      if KeyBytes(list[i].base) == KeyBytes(b) {
        RemoveFirstAt(list, WithKey(KeyBytes(b)), i);
        return RemoveAt(list, i);
      }
      i := i + 1;
    }
    RemoveFirstAt(list, WithKey(KeyBytes(b)), i);
    return list;
  }

  lemma FilterNext(list: seq<Entry>, n: nat, p: Entry -> bool)
    requires n < |list|
    ensures Filter(list[..n+1], p) == Filter(list[..n], p) + if p(list[n]) then [list[n]] else []
  {
    assert list[..n+1] == list[..n] + [list[n]];
    FilterAppend(list[..n], [list[n]], p);
  }

  lemma NoneYet(list: seq<Entry>, k: Key)
    ensures Filter(list[..0], Not(WithKey(k))) == [] && Filter(list[..0], WithKey(k)) == []
  {
  }

  /** The full_list pass of delete_rule: every match is unlinked and queued. */
  method UnlinkAll(list: seq<Entry>, b: Base) returns (rest: seq<Entry>, queued: seq<Entry>)
    ensures rest == Filter(list, Not(WithKey(KeyBytes(b))))
    ensures queued == Filter(list, WithKey(KeyBytes(b)))
  {
    hide Filter, KeyBytes;
    NoneYet(list, KeyBytes(b));
    rest, queued := list, [];
    var i := 0;
    ghost var n := 0;
    ghost var kept: seq<Entry> := [];
    while i < |rest|
      invariant n <= |list| && rest == kept + list[n..] && i == |kept|
      invariant kept == Filter(list[..n], Not(WithKey(KeyBytes(b))))
      invariant queued == Filter(list[..n], WithKey(KeyBytes(b)))
      decreases |rest| - i
    {
      FilterNext(list, n, WithKey(KeyBytes(b)));
      FilterNext(list, n, Not<Entry>(WithKey(KeyBytes(b))));
      if KeyBytes(rest[i].base) == KeyBytes(b) {
        queued := queued + [rest[i]];
        rest := RemoveAt(rest, i);
      } else {
        kept := kept + [rest[i]];
        i := i + 1;
      }
      n := n + 1;
    }
    assert list[..n] == list;
  }

  class Store {
    const hash: HashFn
    var full: seq<Entry>
    var ins: seq<Entry>
    var outs: seq<Entry>
    var table: Table<Entry>
    /** Entries handed to call_rcu. */
    var pending: seq<Entry>
    var inPolicy: u8
    var outPolicy: u8
    /** /proc switch of the whole filter. */
    var enabled: bool
    /** Nesting of rcu_read_lock. */
    var readLocks: nat

    ghost predicate Valid()
      reads this
    {
      && Coherent(full, ins, outs, table, hash)
      && UniqueKeys(full)
      && forall e | e in pending :: e !in full
    }

    function Abs(): RuleSpec.Firewall
      reads this, full
    {
      RuleSpec.Firewall(Rules(full), inPolicy, outPolicy)
    }

    /** init_module: empty lists, ten buckets, both chains accept. */
    constructor (h: HashFn)
      ensures Valid() && Abs() == RuleSpec.LOADED && enabled && readLocks == 0 && hash == h && fresh(this)
    {
      hash := h;
      full, ins, outs, pending := [], [], [], [];
      table := seq(10, i => []);
      inPolicy, outPolicy := NF_ACCEPT, NF_ACCEPT;
      enabled, readLocks := true, 0;
    }

    /** add_rule links the copy everywhere without asking whether the key is new. */
    method AddRule(fr: Rule)
      requires Coherent(full, ins, outs, table, hash)
      modifies `full, `ins, `outs, `table
      ensures Coherent(full, ins, outs, table, hash)
      ensures |full| > 0 && full[..|full|-1] == old(full)
      ensures fresh(full[|full|-1]) && full[|full|-1].Fr() == fr
    {
      assert table != [];
      hide Coherent, Insert, KeyBytes, Placed;
      var e := new Entry(fr);
      AddKeepsCoherent(full, ins, outs, table, hash, e);
      full := full + [e];
      table := Insert(table, hash, KeyBytes(fr.base), e);
      if fr.base.chain == CHAIN_INPUT {
        ins := ins + [e];
      } else if fr.base.chain == CHAIN_OUTPUT {
        outs := outs + [e];
      }
    }

    /** delete_rule, on any store: what each structure loses. */
    method DeleteRule(b: Base)
      requires table != []
      modifies `full, `ins, `outs, `table, `pending
      ensures full == Filter(old(full), Not(WithKey(KeyBytes(b))))
      ensures ins == RemoveFirst(old(ins), WithKey(KeyBytes(b)))
      ensures outs == RemoveFirst(old(outs), WithKey(KeyBytes(b)))
      ensures table == Delete(old(table), hash, KeyBytes(b))
      ensures pending == old(pending) + Filter(old(full), WithKey(KeyBytes(b)))
    {
      ins := UnlinkFirst(ins, b);
      outs := UnlinkFirst(outs, b);
      table := Delete(table, hash, KeyBytes(b));
      var queued;
      full, queued := UnlinkAll(full, b);
      pending := pending + queued;
    }

    /** delete_rules empties everything; it does not need unique keys. */
    method DeleteRules()
      requires Coherent(full, ins, outs, table, hash)
      modifies `full, `ins, `outs, `table, `pending
      ensures Coherent(full, ins, outs, table, hash) && full == ins == outs == []
      ensures pending == old(pending) + old(full)
    {
      ghost var ins', outs' := ins, outs;
      while ins != []
        modifies `ins
        decreases |ins|
      {
        ins := ins[1..];
      }
      while outs != []
        modifies `outs
        decreases |outs|
      {
        outs := outs[1..];
      }
      FlushStarts(full, ins', outs', table, hash);
      hide Coherent, Flushing, KeyBytes, Delete;
      while full != []
        invariant Flushing(full, table, hash)
        invariant pending + full == old(pending) + old(full)
        modifies `full, `table, `pending
        decreases |full|
      {
        var e := full[0];
        FlushStep(full, table, hash);
        table := Delete(table, hash, KeyBytes(e.base));
        full := full[1..];
        pending := pending + [e];
      }
      FlushEnds(table, hash);
    }

    /** find_rule: the entry stored under this key, if any. */
    method FindRule(b: Base) returns (r: Option<Entry>)
      requires Valid()
      ensures r.Some? <==> RuleSpec.Stored(Rules(full), b)
      ensures r.Some? ==> r.value in full && r.value.base == b
    {
      r := Lookup(table, hash, KeyBytes(b));
      LookupIsTop(table, hash, KeyBytes(b));
      TopStored(full, b);
    }

    /** nl_rcv_msg for the messages that touch the store, one at a time under nl_mutex:
        the store does what the ordered list does, answers what it answers, and keeps the
        three structures in agreement. */
    method RcvMsg(m: RuleSpec.Msg) returns (reply: RuleSpec.Reply)
      requires Valid()
      modifies `full, `ins, `outs, `table, `pending, `inPolicy, `outPolicy, full
      ensures Valid()
      ensures (Abs(), reply) == RuleSpec.Step(old(Abs()), m)
      ensures forall e | e in full :: e in old(full) || fresh(e)
    {
      match m
      case AddRule(fr) => reply := RcvAdd(fr);
      case UpdateRule(fr) => reply := RcvUpdate(fr);
      case DeleteRule(fr) => reply := RcvDelete(fr);
      case DeleteAllRules =>
        DeleteRules();
        reply := RuleSpec.Ok;
      case ChainPolicy(fr) =>
        SetChainPolicy(fr);
        reply := RuleSpec.Ok;
    }

    method RcvAdd(fr: Rule) returns (reply: RuleSpec.Reply)
      requires Valid()
      modifies `full, `ins, `outs, `table
      ensures Valid()
      ensures (Abs(), reply) == RuleSpec.Step(old(Abs()), RuleSpec.AddRule(fr))
      ensures forall e | e in full :: e in old(full) || fresh(e)
    {
      if PolicyRule(fr.base) { return RuleSpec.NoReply; }
      var found := FindRule(fr.base);
      if found.Some? { return RuleSpec.AlreadyHaveRule(fr); }
      ghost var before, rules := full, Rules(full);
      assert forall e | e in full :: e.base != fr.base by { StoredIff(full, fr.base); }
      AddRule(fr);
      assert full == before + [full[|full|-1]];
      RulesAppend(before, [full[|full|-1]]);
      assert Rules(before) == rules;
      assert Rules([full[|full|-1]]) == [fr];
      return RuleSpec.Ok;
    }

    method RcvUpdate(fr: Rule) returns (reply: RuleSpec.Reply)
      requires Valid()
      modifies full
      ensures Valid()
      ensures (Abs(), reply) == RuleSpec.Step(old(Abs()), RuleSpec.UpdateRule(fr))
    {
      var found := FindRule(fr.base);
      match found
      case None => return RuleSpec.MissingRule(fr);
      case Some(e) =>
        ghost var before := Rules(full);
        forall i | 0 <= i < |full| ensures before[i] == old(full[i].Fr()) { RulesAt(full, i); }
        if fr.off != SW_NONE { e.off := fr.off; }
        if fr.policy != POLICY_NONE { e.policy := fr.policy; }
        UpdatedRules(full, before, fr, e);
        return RuleSpec.Ok;
    }

    method RcvDelete(fr: Rule) returns (reply: RuleSpec.Reply)
      requires Valid()
      modifies `full, `ins, `outs, `table, `pending
      ensures Valid()
      ensures (Abs(), reply) == RuleSpec.Step(old(Abs()), RuleSpec.DeleteRule(fr))
      ensures forall e | e in full :: e in old(full)
    {
      var found := FindRule(fr.base);
      if found.None? { return RuleSpec.MissingRule(fr); }
      DeletedState(full, ins, outs, table, hash, fr.base, pending);
      RulesDeleted(full, fr.base);
      ghost var rest := Filter(full, Not<Entry>(WithKey(KeyBytes(fr.base))));
      ghost var rules := Rules(rest);
      assert table != [];
      hide Coherent, Filter, RemoveFirst, Delete;
      DeleteRule(fr.base);
      assert full == rest && Rules(rest) == rules;
      forall e | e in full ensures e in old(full) { FilterIn(old(full), Not<Entry>(WithKey(KeyBytes(fr.base))), e); }
      return RuleSpec.Ok;
    }

    /** A run of messages: the store ends where the ordered list ends. */
    method Serve(ms: seq<RuleSpec.Msg>)
      requires Valid()
      modifies `full, `ins, `outs, `table, `pending, `inPolicy, `outPolicy, full
      ensures Valid()
      ensures Abs() == RuleSpec.Run(old(Abs()), ms)
      ensures forall k | 0 <= k < |full| :: full[k] in old(full) || fresh(full[k])
    {
      var i := 0;
      while i < |ms|
        invariant i <= |ms| && Valid()
        invariant RuleSpec.Run(Abs(), ms[i..]) == RuleSpec.Run(old(Abs()), ms)
        invariant forall k | 0 <= k < |full| :: full[k] in old(full) || fresh(full[k])
      {
        ghost var before := full;
        var reply := RcvMsg(ms[i]);
        forall k | 0 <= k < |full| ensures full[k] in old(full) || fresh(full[k]) {
          assert full[k] in full;
          if full[k] in before { var j :| 0 <= j < |before| && before[j] == full[k]; }
        }
        assert ms[i..][1..] == ms[i+1..];
        i := i + 1;
      }
    }

    method SetChainPolicy(fr: Rule)
      modifies this`inPolicy, this`outPolicy
      ensures fr.base.chain == CHAIN_INPUT || fr.base.chain == CHAIN_ALL ==> inPolicy == ApplyPolicy(fr.policy)
      ensures fr.base.chain == CHAIN_OUTPUT || fr.base.chain == CHAIN_ALL ==> outPolicy == ApplyPolicy(fr.policy)
      ensures fr.base.chain != CHAIN_INPUT && fr.base.chain != CHAIN_ALL ==> inPolicy == old(inPolicy)
      ensures fr.base.chain != CHAIN_OUTPUT && fr.base.chain != CHAIN_ALL ==> outPolicy == old(outPolicy)
    {
      if fr.base.chain == CHAIN_INPUT {
        inPolicy := ApplyPolicy(fr.policy);
      } else if fr.base.chain == CHAIN_OUTPUT {
        outPolicy := ApplyPolicy(fr.policy);
      } else if fr.base.chain == CHAIN_ALL {
        inPolicy := ApplyPolicy(fr.policy);
        outPolicy := ApplyPolicy(fr.policy);
      }
    }

    /** The RCU section of hook_func: walk until an entry decides, and release the read
        lock on either way out. */
    method Walk(chain: seq<Entry>, p: RuleSpec.Packet, policy: u8) returns (verdict: u8)
      modifies this`readLocks
      ensures verdict == RuleSpec.Decide(RuleSpec.FirstMatch(Rules(chain), p), policy)
      ensures readLocks == old(readLocks)
    {
      ghost var rules := Rules(chain);
      hide RuleSpec.Matches, RuleSpec.FirstMatch, Rules;
      readLocks := readLocks + 1;
      var i := 0;
      while i < |chain|
        invariant i <= |chain| && readLocks == old(readLocks) + 1
        invariant rules == Rules(chain) && RuleSpec.FirstMatch(rules, p) == RuleSpec.FirstMatch(rules[i..], p)
      {
        RulesAt(chain, i);
        RuleSpec.FirstMatchFrom(rules, i, p);
        var rulePolicy := chain[i].policy;
        if RuleSpec.Matches(chain[i].Fr(), p) {
          readLocks := readLocks - 1;
          return ApplyPolicy(rulePolicy);
        }
        i := i + 1;
      }
      readLocks := readLocks - 1;
      assert rules[i..] == [] && RuleSpec.FirstMatch([], p) == None by { RuleSpec.FirstMatchEmpty(p); }
      return policy;
    }

    /** hook_func: the verdict of the ordered list. A packet is dropped exactly when the
        filter is on, the packet is TCP or UDP, and the earliest rule of its chain that
        matches does not accept or, when none matches, the chain's policy is to drop. */
    method Hook(p: RuleSpec.Packet, inbound: bool) returns (verdict: u8)
      requires Valid()
      modifies this`readLocks
      ensures verdict == if enabled then RuleSpec.Verdict(Abs(), p, inbound) else NF_ACCEPT
      ensures verdict == NF_DROP <==>
        enabled && RuleLaws.Drops(RuleSpec.Chain(Abs(), inbound), if inbound then inPolicy else outPolicy, p)
      ensures inPolicy in {NF_ACCEPT, NF_DROP} && outPolicy in {NF_ACCEPT, NF_DROP} ==>
        verdict in {NF_ACCEPT, NF_DROP}
      ensures readLocks == old(readLocks)
    {
      RuleLaws.VerdictIs(Abs(), p, inbound);
      hide RuleLaws.Drops;
      if !enabled { return NF_ACCEPT; }
      ChainRules(full, RuleSpec.ChainOf(inbound));
      if p.proto == RuleSpec.UDP || p.proto == RuleSpec.TCP {
        verdict := Walk(if inbound then ins else outs, p, if inbound then inPolicy else outPolicy);
      } else {
        verdict := NF_ACCEPT;
      }
    }
  }

  /** A chain list spells out the rules the ordered list has for that chain. */
  lemma ChainRules(full: seq<Entry>, c: u8)
    ensures Rules(Filter(full, InChain(c))) == Filter(Rules(full), RuleSpec.OnChain(c))
  {
    RulesFilter(full, InChain(c), RuleSpec.OnChain(c));
  }

  lemma {:induction false} StoredIff(full: seq<Entry>, b: Base)
    ensures RuleSpec.Stored(Rules(full), b) <==> exists e | e in full :: e.base == b
  {
    if RuleSpec.Stored(Rules(full), b) {
      var i :| 0 <= i < |full| && Rules(full)[i].base == b;
      RulesAt(full, i);
      assert full[i] in full;
    }
    if e :| e in full && e.base == b {
      var i :| 0 <= i < |full| && full[i] == e;
      RulesAt(full, i);
    }
  }

  lemma TopStored(full: seq<Entry>, b: Base)
    ensures var s := Reverse(Filter(full, WithKey(KeyBytes(b))));
      && (s != [] <==> RuleSpec.Stored(Rules(full), b))
      && (s != [] ==> s[0] in full && s[0].base == b)
  {
    var f := Filter(full, WithKey(KeyBytes(b)));
    ReverseLength(f);
    StoredIff(full, b);
    if f != [] {
      var e := Reverse(f)[0];
      ReverseIn(f, e);
      FilterIn(full, WithKey(KeyBytes(b)), e);
      KeyBytesInjective(e.base, b);
    }
    if e :| e in full && e.base == b { FilterIn(full, WithKey(KeyBytes(b)), e); }
  }

  /** After the two field writes through `e`, every list sees the updated rule. */
  lemma UpdatedRules(full: seq<Entry>, before: seq<Rule>, fr: Rule, e: Entry)
    requires UniqueKeys(full) && |before| == |full| && e in full && e.base == fr.base
    requires forall i | 0 <= i < |full| :: before[i].base == full[i].base
    requires forall i | 0 <= i < |full| && full[i] != e :: full[i].Fr() == before[i]
    requires forall i | 0 <= i < |full| && full[i] == e :: e.Fr() == RuleSpec.Updated(before[i], fr)
    ensures Rules(full) == Map(before, RuleSpec.UpdateWhere(fr))
  {
    MapIndex(before, RuleSpec.UpdateWhere(fr));
    var k :| 0 <= k < |full| && full[k] == e;
    forall i | 0 <= i < |full| ensures Rules(full)[i] == RuleSpec.UpdateWhere(fr)(before[i]) {
      RulesAt(full, i);
      if full[i] != e { assert full[i].base != full[k].base; }
    }
  }

  /** With unique keys, what delete_rule leaves behind is a valid store again. */
  lemma DeletedState(full: seq<Entry>, ins: seq<Entry>, outs: seq<Entry>, t: Table<Entry>, h: HashFn, b: Base,
      pending: seq<Entry>)
    requires Coherent(full, ins, outs, t, h) && UniqueKeys(full) && forall e | e in pending :: e !in full
    ensures var k := KeyBytes(b);
      && Coherent(Filter(full, Not(WithKey(k))), RemoveFirst(ins, WithKey(k)), RemoveFirst(outs, WithKey(k)),
        Delete(t, h, k), h)
      && UniqueKeys(Filter(full, Not(WithKey(k))))
      && forall e | e in pending + Filter(full, WithKey(k)) :: e !in Filter(full, Not(WithKey(k)))
  {
    var k := KeyBytes(b);
    var rest := Filter(full, Not<Entry>(WithKey(k)));
    UniqueMeansOne(full, k);
    DeleteKeepsCoherentIff(full, ins, outs, t, h, k);
    forall i, j | 0 <= i < j < |rest|
      ensures rest[i].base != rest[j].base
    {
      FilterUnique(full, Not<Entry>(WithKey(k)), i, j);
    }
    forall e | e in pending + Filter(full, WithKey(k)) ensures e !in rest {
      FilterIn(full, WithKey(k), e);
      FilterIn(full, Not<Entry>(WithKey(k)), e);
    }
  }

  lemma RulesDeleted(full: seq<Entry>, b: Base)
    ensures Rules(Filter(full, Not(WithKey(KeyBytes(b))))) == Filter(Rules(full), Not(RuleSpec.HasBase(b)))
  {
    forall e | e in full ensures Not<Entry>(WithKey(KeyBytes(b)))(e) == Not(RuleSpec.HasBase(b))(e.Fr()) {
      KeyBytesInjective(e.base, b);
    }
    RulesFilter(full, Not<Entry>(WithKey(KeyBytes(b))), Not(RuleSpec.HasBase(b)));
  }

  /** While the flush runs, every key has as many hash entries as full_list entries. */
  ghost predicate Flushing(full: seq<Entry>, t: Table<Entry>, h: HashFn) {
    Placed(t, h) && forall k :: |Stack(t, h, k)| == |Filter(full, WithKey(k))|
  }

  lemma FlushStarts(full: seq<Entry>, ins: seq<Entry>, outs: seq<Entry>, t: Table<Entry>, h: HashFn)
    requires Coherent(full, ins, outs, t, h)
    ensures t != [] && Flushing(full, t, h)
  {
    forall k ensures |Stack(t, h, k)| == |Filter(full, WithKey(k))| { ReverseLength(Filter(full, WithKey(k))); }
  }

  lemma FlushEnds(t: Table<Entry>, h: HashFn)
    requires Flushing([], t, h)
    ensures Coherent([], [], [], t, h)
  {
    var none: seq<Entry> := [];
    forall k ensures Stack(t, h, k) == Reverse(Filter(none, WithKey(k))) {
      assert |Stack(t, h, k)| == 0;
    }
  }

  lemma FlushStep(full: seq<Entry>, t: Table<Entry>, h: HashFn)
    requires full != [] && Flushing(full, t, h)
    ensures t != [] && Delete(t, h, KeyBytes(full[0].base)) != []
    ensures Flushing(full[1..], Delete(t, h, KeyBytes(full[0].base)), h)
  {
    var b := KeyBytes(full[0].base);
    DeletePops(t, h, b, b);
    forall k ensures |Stack(Delete(t, h, b), h, k)| == |Filter(full[1..], WithKey(k))| {
      DeletePops(t, h, b, k);
    }
  }
}
