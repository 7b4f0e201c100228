/** The rule cache of bf-service/bfrules.cpp, and stop() and started() of
    bf-service/bfserviceprivate.cpp, on a kernel store. */
module Service {
  import opened Seqs
  import opened TrxData
  import opened RuleSpec
  import opened Listing
  import opened Collector
  import opened Persistence
  import ListingProtocol
  import RuleIndex
  import RuleStore

  /** BfRules' static list and the cache file it is kept in. */
  class RuleCache {
    var sRules: seq<Rule>
    var file: seq<u8>

    constructor (file: seq<u8>)
      ensures sRules == [] && this.file == file
    {
      this.sRules, this.file := [], file;
    }

    method GetByPattern(fr: Rule) returns (list: seq<Rule>)
      ensures list == ByPattern(sRules, fr)
      ensures forall r :: r in list <==> r in sRules && FrPattern(r, fr)
    {
      list := [];
      var i := 0;
      while i < |sRules|
        invariant i <= |sRules| && list == ByPattern(sRules[..i], fr)
      {
        assert sRules[..i+1] == sRules[..i] + [sRules[i]];
        FilterSnoc(sRules[..i], sRules[i], (r: Rule) => FrPattern(r, fr));
        if FrPattern(sRules[i], fr) { list := list + [sRules[i]]; }
        i := i + 1;
      }
      assert sRules[..i] == sRules;
      forall r ensures r in list <==> r in sRules && FrPattern(r, fr) {
        FilterIn(sRules, (q: Rule) => FrPattern(q, fr), r);
      }
    }

    /** A file that does not open leaves the cache as it was. */
    method LoadFromFile(opens: bool, junk: nat -> u32)
      modifies `sRules
      ensures sRules == Loaded(old(sRules), file, opens, junk)
    {
      if !opens { return; }
      sRules := [];
      var s, n := file, 0;
      while s != []
        invariant sRules + DecodeAll(s, junk, n) == DecodeAll(file, junk, 0)
        decreases |s|
      {
        var (r, rest) := Decode(s, junk(n));
        Assoc(sRules, [r], DecodeAll(rest, junk, n + 1));
        hide Decode;
        sRules := sRules + [r];
        s, n := rest, n + 1;
      }
      assert sRules + [] == sRules;
    }

    method LoadFromList(list: seq<Rule>)
      modifies `sRules
      ensures sRules == list
    {
      sRules := [];
      var i := 0;
      while i < |list|
        invariant i <= |list| && sRules == list[..i]
      {
        sRules := sRules + [list[i]];
        i := i + 1;
      }
    }

    /** A file that does not open is not written. */
    method SaveToFile(opens: bool) returns (ok: bool)
      modifies `file
      ensures ok == opens && file == if opens then EncodeAll(sRules) else old(file)
    {
      if !opens { return false; }
      file := [];
      var i := 0;
      assert sRules[0..] == sRules;
      while i < |sRules|
        invariant i <= |sRules| && file + EncodeAll(sRules[i..]) == EncodeAll(sRules)
      {
        assert sRules[i..][1..] == sRules[i+1..];
        Assoc(file, Encode(sRules[i]), EncodeAll(sRules[i+1..]));
        hide Encode;
        file := file + Encode(sRules[i]);
        i := i + 1;
      }
      assert file + [] == file;
      ok := true;
    }
  }

  /** The cached rules after loadFromFile. */
  function Loaded(cached: seq<Rule>, file: seq<u8>, opens: bool, junk: nat -> u32): seq<Rule> {
    if opens then DecodeAll(file, junk, 0) else cached
  }

  lemma ScriptCloses(f: Firewall, pattern: Rule)
    ensures Closing(Sends(Script(f, pattern))) && Payload(Sends(Script(f, pattern))) == Carried(f, pattern)
  {
    ScriptPayload(f, pattern);
    ListingProtocol.ScriptClosed(f, pattern);
    hide Script, Carried;
    ListingProtocol.SendsClosing(Script(f, pattern));
  }

  lemma OnlyIds(full: seq<RuleIndex.Entry>, before: seq<Rule>)
    requires |before| == |full| && forall i | 0 <= i < |full| :: full[i].Fr() == before[i].(id := full[i].id)
    ensures AnonAll(RuleStore.Rules(full)) == AnonAll(before)
  {
    MapIndex(RuleStore.Rules(full), Anon());
    MapIndex(before, Anon());
    forall i | 0 <= i < |full|
      ensures RuleStore.Rules(full)[i] == before[i].(id := full[i].id)
    {
      RuleStore.RulesAt(full, i);
    }
  }

  /** The kernel's side of a listing: only ids change. */
  method ListOnce(kernel: RuleStore.Store, pattern: Rule) returns (acts: seq<Act>)
    requires kernel.Valid()
    modifies kernel.full`id
    ensures kernel.Valid() && acts == Script(old(kernel.Abs()), pattern)
    ensures Nameless(kernel.Abs()) == old(Nameless(kernel.Abs()))
  {
    ghost var rules := RuleStore.Rules(kernel.full);
    forall i | 0 <= i < |kernel.full| ensures rules[i] == kernel.full[i].Fr() { RuleStore.RulesAt(kernel.full, i); }
    acts := ListRules(kernel, pattern);
    OnlyIds(kernel.full, rules);
  }

  /** getRulesSync on the kernel: what the listing carries, as far as it came in before the
      timer fired, and nothing when the request was refused. The caller cannot tell. */
  method GetRules(kernel: RuleStore.Store, control: BFControl, pattern: Rule, reach: Reach) returns (list: seq<Rule>)
    requires kernel.Valid()
    modifies kernel.full`id, control
    ensures kernel.Valid() && list == Got(Carried(old(kernel.Abs()), pattern), reach)
    ensures Nameless(kernel.Abs()) == old(Nameless(kernel.Abs()))
  {
    if reach.Refused? {
      list := control.GetRulesSync([], reach);
      return;
    }
    ScriptCloses(kernel.Abs(), pattern);
    var acts := ListOnce(kernel, pattern);
    list := control.GetRulesSync(Sends(acts), reach);
  }

  /** stop(): the cache file becomes the kernel's list, policies included, as far as the
      listing came in: a listing cut short by the timer, or refused, is saved all the same. */
  method Stop(kernel: RuleStore.Store, control: BFControl, cache: RuleCache, reach: Reach, writable: bool)
    requires kernel.Valid()
    modifies kernel.full`id, control, cache
    ensures kernel.Valid() && Nameless(kernel.Abs()) == old(Nameless(kernel.Abs()))
    ensures cache.file ==
      if writable then SavedUpTo(old(kernel.Abs()), ChainPattern(CHAIN_ALL), Reached(reach)) else old(cache.file)
  {
    hide Carried, EncodeAll;
    var list := GetRules(kernel, control, ChainPattern(CHAIN_ALL), reach);
    cache.LoadFromList(list);
    var ok := cache.SaveToFile(writable);
  }

  /** Each rule goes out by addRule, whose answers are ignored but for a socket error,
      which is met, if at all, after `sent` rules and ends the loop. */
  method SendRulesSync(kernel: RuleStore.Store, control: BFControl, rules: seq<Rule>, sent: nat) returns (ok: bool)
    requires kernel.Valid()
    modifies kernel`full, kernel`ins, kernel`outs, kernel`table, kernel`pending, kernel`inPolicy, kernel`outPolicy,
      kernel.full
    modifies control`ruleslst
    ensures kernel.Valid() && kernel.Abs() == AddAll(old(kernel.Abs()), Cut(rules, sent))
    ensures forall k | 0 <= k < |kernel.full| :: kernel.full[k] in old(kernel.full) || fresh(kernel.full[k])
    ensures ok == (sent >= |rules|) && control.ruleslst == if ok then old(control.ruleslst) else None
  {
    kernel.Serve(Adds(Cut(rules, sent)));
    ok := sent >= |rules|;
    if !ok { control.ruleslst := None; }
  }

  /** What a start meets outside: whether the cache file opens, how many rules the socket
      takes, how the closing listing goes, whether the file opens again. */
  datatype Outside = Outside(readable: bool, sent: nat, reach: Reach, writable: bool)

  /** The kernel after the replay of a start. */
  function AfterReplay(kernel: Firewall, cached: seq<Rule>, sent: nat): Firewall {
    AddAll(kernel, Cut(Replayed(cached), sent))
  }

  /** The first half of started(). */
  method Replay(kernel: RuleStore.Store, control: BFControl, cache: RuleCache, junk: nat -> u32, out: Outside)
    requires kernel.Valid()
    modifies kernel`full, kernel`ins, kernel`outs, kernel`table, kernel`pending, kernel`inPolicy, kernel`outPolicy,
      kernel.full
    modifies control`ruleslst, cache`sRules
    ensures kernel.Valid()
    ensures kernel.Abs() ==
      AfterReplay(old(kernel.Abs()), Loaded(old(cache.sRules), old(cache.file), out.readable, junk), out.sent)
    ensures forall k | 0 <= k < |kernel.full| :: kernel.full[k] in old(kernel.full) || fresh(kernel.full[k])
    ensures out.readable && out.sent >= |Replayed(cache.sRules)| ==>
      kernel.Abs() == Restarted(old(kernel.Abs()), old(cache.file), junk)
  {
    hide DecodeAll, ByPattern, AddAll, RuleIndex.Coherent, RuleIndex.UniqueKeys;
    cache.LoadFromFile(out.readable, junk);
    var ins := cache.GetByPattern(ChainPattern(CHAIN_INPUT));
    var outs := cache.GetByPattern(ChainPattern(CHAIN_OUTPUT));
    var ok := SendRulesSync(kernel, control, ins + outs, out.sent);
  }

  /** started(): replay the cache into the kernel, then cache what it lists for INPUT. */
  method Started(kernel: RuleStore.Store, control: BFControl, cache: RuleCache, junk: nat -> u32, out: Outside)
    requires kernel.Valid()
    modifies kernel`full, kernel`ins, kernel`outs, kernel`table, kernel`pending, kernel`inPolicy, kernel`outPolicy,
      kernel.full
    modifies control, cache
    ensures kernel.Valid()
    ensures var f := AfterReplay(old(kernel.Abs()), Loaded(old(cache.sRules), old(cache.file), out.readable, junk),
      out.sent);
      && Nameless(kernel.Abs()) == Nameless(f)
      && cache.file == if out.writable then SavedUpTo(f, ChainPattern(CHAIN_INPUT), Reached(out.reach))
        else old(cache.file)
  {
    hide Carried, EncodeAll, DecodeAll, ByPattern, AddAll, Cut, RuleIndex.Coherent, RuleIndex.UniqueKeys;
    Replay(kernel, control, cache, junk, out);
    var list := GetRules(kernel, control, ChainPattern(CHAIN_INPUT), out.reach);
    cache.LoadFromList(list);
    var ok := cache.SaveToFile(out.writable);
  }
}
