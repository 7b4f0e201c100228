/** Save, restart and reload on values: the rule stream of common/trx_data.h, what a replay
    does to the kernel's rules, and what a restart keeps. */
module Persistence {
  import opened Seqs
  import opened TrxData
  import opened RuleSpec
  import opened Listing

  // ----- the rule stream -----

  function Be16(x: u16): seq<u8> { [x / 0x100, x % 0x100] }

  function Be32(x: u32): seq<u8> { Be16(x / 0x1_0000) + Be16(x % 0x1_0000) }

  const RECORD: nat := 17

  /** operator<<, big-endian; the id and the MAC fields are not written. */
  function Encode(r: Rule): seq<u8> {
    Be16(r.base.srcPort) + Be16(r.base.dstPort) + Be32(r.base.sAddr) + Be32(r.base.dAddr)
    + Be16(r.base.proto) + [r.base.chain, r.policy, r.off]
  }

  function EncodeAll(rules: seq<Rule>): seq<u8> {
    if rules == [] then [] else Encode(rules[0]) + EncodeAll(rules[1..])
  }

  /** A read past the end yields zero and uses up what is there. */
  function Get8(s: seq<u8>): (u8, seq<u8>) { if s == [] then (0, []) else (s[0], s[1..]) }

  function Get16(s: seq<u8>): (u16, seq<u8>) {
    if |s| < 2 then (0, []) else
      var b0: int, b1: int := s[0], s[1];
      (b0 * 0x100 + b1, s[2..])
  }

  function Get32(s: seq<u8>): (u32, seq<u8>) {
    if |s| < 4 then (0, []) else
      var hi: int, lo: int := Get16(s).0, Get16(s[2..]).0;
      (hi * 0x1_0000 + lo, s[4..])
  }

  /** operator>> into a new rule, whose constructor leaves the id as it finds it. */
  function Decode(s: seq<u8>, id: u32): (r: (Rule, seq<u8>))
    ensures s != [] ==> |r.1| < |s|
  {
    var (srcPort, s1) := Get16(s);
    var (dstPort, s2) := Get16(s1);
    var (sAddr, s3) := Get32(s2);
    var (dAddr, s4) := Get32(s3);
    var (proto, s5) := Get16(s4);
    var (chain, s6) := Get8(s5);
    var (policy, s7) := Get8(s6);
    var (off, s8) := Get8(s7);
    (Rule(Base(chain, proto, srcPort, dstPort, sAddr, dAddr), off, policy, id), s8)
  }

  /** The loop of loadFromFile; `junk` is the ids the new rules happen to hold. */
  function DecodeAll(s: seq<u8>, junk: nat -> u32, n: nat): seq<Rule>
    decreases |s|
  {
    if s == [] then [] else
      var (r, rest) := Decode(s, junk(n));
      [r] + DecodeAll(rest, junk, n + 1)
  }

  lemma Get16Back(x: u16, rest: seq<u8>)
    ensures |Be16(x)| == 2 && Get16(Be16(x) + rest) == (x, rest)
  {
    assert (Be16(x) + rest)[2..] == rest;
  }

  lemma Get32Back(x: u32, rest: seq<u8>)
    ensures |Be32(x)| == 4 && Get32(Be32(x) + rest) == (x, rest)
  {
    var s := Be32(x) + rest;
    assert s == Be16(x / 0x1_0000) + (Be16(x % 0x1_0000) + rest);
    Get16Back(x / 0x1_0000, Be16(x % 0x1_0000) + rest);
    Get16Back(x % 0x1_0000, rest);
    assert s[2..] == Be16(x % 0x1_0000) + rest && s[4..] == rest;
  }

  lemma EncodeParts(r: Rule, rest: seq<u8>)
    ensures |Encode(r)| == RECORD
    ensures Encode(r) + rest ==
      Be16(r.base.srcPort) + (Be16(r.base.dstPort) + (Be32(r.base.sAddr) + (Be32(r.base.dAddr)
      + (Be16(r.base.proto) + ([r.base.chain] + ([r.policy] + ([r.off] + rest)))))))
  {
  }

  /** Every field written comes back; the id is whatever it was. */
  lemma DecodeBack(r: Rule, id: u32, rest: seq<u8>)
    ensures Decode(Encode(r) + rest, id) == (r.(id := id), rest)
  {
    var s8 := rest;
    var s7 := [r.off] + s8;
    var s6 := [r.policy] + s7;
    var s5 := [r.base.chain] + s6;
    var s4 := Be16(r.base.proto) + s5;
    var s3 := Be32(r.base.dAddr) + s4;
    var s2 := Be32(r.base.sAddr) + s3;
    var s1 := Be16(r.base.dstPort) + s2;
    EncodeParts(r, rest);
    hide Encode, Be16, Be32, Get16, Get32;
    Get16Back(r.base.srcPort, s1);
    Get16Back(r.base.dstPort, s2);
    Get32Back(r.base.sAddr, s3);
    Get32Back(r.base.dAddr, s4);
    Get16Back(r.base.proto, s5);
  }

  /** Where each field stands in a record, high byte first. */
  lemma RecordBytes(r: Rule)
    ensures var e, b := Encode(r), r.base;
      && |e| == RECORD
      && b.srcPort == BigEnd(e[..2]) && b.dstPort == BigEnd(e[2..4]) && b.sAddr == BigEnd(e[4..8])
      && b.dAddr == BigEnd(e[8..12]) && b.proto == BigEnd(e[12..14])
      && b.chain == e[14] && r.policy == e[15] && r.off == e[16]
  {
    var e, b := Encode(r), r.base;
    assert e[..2] == Be16(b.srcPort) && e[2..4] == Be16(b.dstPort) && e[4..8] == Be32(b.sAddr);
    assert e[8..12] == Be32(b.dAddr) && e[12..14] == Be16(b.proto);
    hide Encode, BigEnd;
    Be16Bytes(b.srcPort);
    Be16Bytes(b.dstPort);
    Be16Bytes(b.proto);
    Be32Bytes(b.sAddr);
    Be32Bytes(b.dAddr);
  }

  /** The number whose bytes these are, the highest first. */
  function BigEnd(s: seq<u8>): nat {
    if s == [] then 0
    else
      var low: int := s[|s|-1];
      0x100 * BigEnd(s[..|s|-1]) + low
  }

  lemma Be16Bytes(x: u16)
    ensures BigEnd(Be16(x)) == x
  {
    var s := Be16(x);
    assert s[..1] == [x / 0x100];
    assert BigEnd([x / 0x100]) == x / 0x100;
  }

  lemma Be32Bytes(x: u32)
    ensures BigEnd(Be32(x)) == x
  {
    var s, hi := Be32(x), Be16(x / 0x1_0000);
    Be16Bytes(x / 0x1_0000);
    assert s[..3][..2] == hi && s[..3] == hi + [s[2]];
  }

  lemma DecodeShort(s: seq<u8>, id: u32)
    requires |s| < RECORD
    ensures var (r, rest) := Decode(s, id);
      && rest == [] && r.off == 0 && (|s| < 16 ==> r.policy == 0)
      && r.base.chain == if |s| < 15 then 0 else s[14]
  {
  }

  /** A file that was cut short: every whole record is loaded, and what is left of the last
      one is one more rule, switched on. If its policy is missing it is a dropping one, and
      if its chain is missing it is of chain 0, which is never replayed. */
  lemma {:induction false} CutFile(rules: seq<Rule>, tail: seq<u8>, junk: nat -> u32, n: nat)
    requires |tail| < RECORD
    ensures var l := DecodeAll(EncodeAll(rules) + tail, junk, n);
      && |l| == |rules| + (if tail == [] then 0 else 1) && Map(l[..|rules|], Anon()) == Map(rules, Anon())
      && (tail != [] ==> l[|rules|].off == SW_NO)
      && (tail != [] && |tail| < 16 ==> l[|rules|].policy == POLICY_DROP)
      && (tail != [] ==> l[|rules|].base.chain == if |tail| < 15 then 0 else tail[14])
  {
    hide Decode, Encode;
    if rules == [] {
      assert EncodeAll(rules) + tail == tail;
      if tail != [] { DecodeShort(tail, junk(n)); }
    } else {
      var more := EncodeAll(rules[1..]) + tail;
      Assoc(Encode(rules[0]), EncodeAll(rules[1..]), tail);
      DecodeOne(rules[0], more, junk, n);
      hide DecodeAll, EncodeAll;
      CutFile(rules[1..], tail, junk, n + 1);
      AnonFront(rules, DecodeAll(more, junk, n + 1), junk(n));
    }
  }

  lemma DecodeOne(r: Rule, more: seq<u8>, junk: nat -> u32, n: nat)
    ensures DecodeAll(Encode(r) + more, junk, n) == [r.(id := junk(n))] + DecodeAll(more, junk, n + 1)
  {
    DecodeBack(r, junk(n), more);
    EncodeParts(r, more);
    hide Decode, Encode;
  }

  lemma AnonFront(rules: seq<Rule>, l: seq<Rule>, id: u32)
    requires rules != [] && |l| >= |rules| - 1 && Map(l[..|rules|-1], Anon()) == Map(rules[1..], Anon())
    ensures Map(([rules[0].(id := id)] + l)[..|rules|], Anon()) == Map(rules, Anon())
  {
    var x, front := rules[0].(id := id), l[..|rules|-1];
    assert ([x] + l)[..|rules|] == [x] + front && [rules[0]] + rules[1..] == rules;
    hide Map;
    AnonCons(x, front);
    AnonCons(rules[0], rules[1..]);
  }

  lemma AnonCons(r: Rule, rules: seq<Rule>)
    ensures Map([r] + rules, Anon()) == [r.(id := 0)] + Map(rules, Anon())
  {
    assert ([r] + rules)[1..] == rules;
  }

  /** A rule short of its id. */
  function Anon(): Rule -> Rule { (r: Rule) => r.(id := 0) }

  lemma {:induction false} LoadsWhatWasSaved(rules: seq<Rule>, junk: nat -> u32, n: nat)
    ensures Map(DecodeAll(EncodeAll(rules), junk, n), Anon()) == Map(rules, Anon())
  {
    if rules == [] {
    } else {
      DecodeBack(rules[0], junk(n), EncodeAll(rules[1..]));
      LoadsWhatWasSaved(rules[1..], junk, n + 1);
      EncodeParts(rules[0], EncodeAll(rules[1..]));
      hide Decode, Encode;
      var l := DecodeAll(EncodeAll(rules[1..]), junk, n + 1);
      assert ([rules[0].(id := junk(n))] + l)[1..] == l;
    }
  }

  // ----- replaying a list into the kernel -----

  function Adds(rules: seq<Rule>): (ms: seq<Msg>) {
    if rules == [] then [] else [AddRule(rules[0])] + Adds(rules[1..])
  }

  /** sendRulesSync: one MSG_ADD_RULE each; only a dead socket would stop it early. */
  function AddAll(f: Firewall, rules: seq<Rule>): Firewall { Run(f, Adds(rules)) }

  lemma {:induction false} AddAllAppend(f: Firewall, a: seq<Rule>, b: seq<Rule>)
    ensures AddAll(f, a + b) == AddAll(AddAll(f, a), b)
    decreases |a|
  {
    if a == [] {
      assert a + b == b;
    } else {
      assert a == [a[0]] + a[1..] && a + b == [a[0]] + (a[1..] + b);
      hide AddAll;
      AddAllAppend(Step(f, AddRule(a[0])).0, a[1..], b);
    }
  }

  /** Rules no two of which share a key, none of them a policy record. */
  ghost predicate Addable(rules: seq<Rule>) {
    && (forall i, j | 0 <= i < j < |rules| :: rules[i].base != rules[j].base)
    && (forall i | 0 <= i < |rules| :: !PolicyRule(rules[i].base))
  }

  /** New rules are all taken, in order. */
  lemma {:induction false} AddAllNew(f: Firewall, rules: seq<Rule>)
    requires Addable(rules) && forall r | r in rules :: !Stored(f.rules, r.base)
    ensures AddAll(f, rules) == f.(rules := f.rules + rules)
    decreases |rules|
  {
    if rules == [] {
      assert f.rules + rules == f.rules;
    } else {
      var r, rest := rules[0], rules[1..];
      var g := f.(rules := f.rules + [r]);
      assert rules == [r] + rest && r in rules;
      forall q | q in rest ensures !Stored(g.rules, q.base) {
        assert q in rules && !Stored(f.rules, q.base);
        var i :| 0 <= i < |rest| && rest[i] == q;
        assert rules[0].base != rules[i+1].base;
      }
      AddAllNew(g, rest);
      Assoc(f.rules, [r], rest);
    }
  }

  /** Rules already there, and policy records, add nothing. */
  lemma {:induction false} AddAllKnown(f: Firewall, rules: seq<Rule>)
    requires forall r | r in rules :: PolicyRule(r.base) || Stored(f.rules, r.base)
    ensures AddAll(f, rules) == f
    decreases |rules|
  {
    if rules == [] {
    } else {
      assert rules == [rules[0]] + rules[1..] && rules[0] in rules;
      AddAllKnown(f, rules[1..]);
    }
  }

  // ----- anonymous rules -----

  function AnonAll(rules: seq<Rule>): seq<Rule> { Map(rules, Anon()) }

  lemma {:induction false} StoredAnon(rules: seq<Rule>, b: Base)
    ensures Stored(rules, b) <==> Stored(AnonAll(rules), b)
  {
    MapIndex(rules, Anon());
    if Stored(rules, b) {
      var i :| 0 <= i < |rules| && rules[i].base == b;
      assert AnonAll(rules)[i].base == b;
    }
    if Stored(AnonAll(rules), b) {
      var i :| 0 <= i < |AnonAll(rules)| && AnonAll(rules)[i].base == b;
      assert rules[i].base == b;
    }
  }

  lemma {:induction false} FilterAnon(rules: seq<Rule>, p: Rule -> bool)
    requires forall r: Rule :: p(r) == p(Anon()(r))
    ensures Filter(AnonAll(rules), p) == AnonAll(Filter(rules, p))
  {
    if rules == [] {
    } else {
      FilterAnon(rules[1..], p);
      MapAppend(if p(rules[0]) then [rules[0]] else [], Filter(rules[1..], p), Anon());
      assert AnonAll(rules)[1..] == AnonAll(rules[1..]);
    }
  }

  function Nameless(f: Firewall): Firewall { f.(rules := AnonAll(f.rules)) }

  /** Which rules are taken does not depend on ids. */
  lemma {:induction false} AddAllAnon(f: Firewall, rules: seq<Rule>)
    ensures Nameless(AddAll(f, rules)) == AddAll(Nameless(f), AnonAll(rules))
    decreases |rules|
  {
    if rules == [] {
    } else {
      var r, rest := rules[0], rules[1..];
      assert rules == [r] + rest && AnonAll(rules) == [Anon()(r)] + AnonAll(rest);
      StoredAnon(f.rules, r.base);
      MapAppend(f.rules, [r], Anon());
      assert AnonAll([r]) == [Anon()(r)];
      assert Nameless(Step(f, AddRule(r)).0) == Step(Nameless(f), AddRule(Anon()(r))).0;
      hide AddAll, Step;
      AddAllAnon(Step(f, AddRule(r)).0, rest);
    }
  }

  // ----- stop and start -----

  function ChainPattern(c: u8): Rule { Rule(Base(c, 0, 0, 0, 0, 0), 0, 0, 0) }

  /** The cache file made of what a listing brought in before the client's timer ended it:
      its first `n` rules, or all of them. */
  function SavedUpTo(f: Firewall, pattern: Rule, n: nat): seq<u8> { EncodeAll(Cut(Carried(f, pattern), n)) }

  /** The cache file stop() leaves when its listing comes through. */
  function Saved(f: Firewall): seq<u8> { EncodeAll(Carried(f, ChainPattern(CHAIN_ALL))) }

  function ByPattern(rules: seq<Rule>, pattern: Rule): seq<Rule> {
    Filter(rules, (r: Rule) => FrPattern(r, pattern))
  }

  /** What started() sends: the cached rules of INPUT, then those of OUTPUT. */
  function Replayed(rules: seq<Rule>): seq<Rule> {
    ByPattern(rules, ChainPattern(CHAIN_INPUT)) + ByPattern(rules, ChainPattern(CHAIN_OUTPUT))
  }

  /** The kernel once started() has replayed the cache file into it. */
  function Restarted(kernel: Firewall, file: seq<u8>, junk: nat -> u32): Firewall {
    AddAll(kernel, Replayed(DecodeAll(file, junk, 0)))
  }

  lemma ByChain(rules: seq<Rule>, c: u8)
    requires c != 0
    ensures ByPattern(rules, ChainPattern(c)) == Filter(rules, OnChain(c))
  {
    FilterSame(rules, (r: Rule) => FrPattern(r, ChainPattern(c)), OnChain(c));
  }

  lemma ReplayedAnon(rules: seq<Rule>)
    ensures AnonAll(Replayed(rules)) == Replayed(AnonAll(rules))
  {
    ByChain(rules, CHAIN_INPUT);
    ByChain(rules, CHAIN_OUTPUT);
    ByChain(AnonAll(rules), CHAIN_INPUT);
    ByChain(AnonAll(rules), CHAIN_OUTPUT);
    FilterAnon(rules, OnChain(CHAIN_INPUT));
    FilterAnon(rules, OnChain(CHAIN_OUTPUT));
    MapAppend(Filter(rules, OnChain(CHAIN_INPUT)), Filter(rules, OnChain(CHAIN_OUTPUT)), Anon());
  }

  lemma {:induction false} RenumberAnon(rules: seq<Rule>, i: nat)
    ensures AnonAll(Renumber(rules, i)) == AnonAll(rules)
  {
    if rules == [] {
    } else {
      RenumberAnon(rules[1..], i + 1);
      assert Renumber(rules, i)[1..] == Renumber(rules[1..], i + 1);
    }
  }

  /** All of a chain, and none of the other, survives the chain filters. */
  lemma OwnChain(rules: seq<Rule>, own: u8, c: u8)
    requires forall r | r in rules :: r.base.chain == own
    ensures Filter(rules, OnChain(c)) == if c == own then rules else []
  {
    FilterTrivial(rules, OnChain(c));
  }

  lemma AnonChain(rules: seq<Rule>, c: u8)
    requires forall r | r in rules :: r.base.chain == c
    ensures forall r | r in AnonAll(rules) :: r.base.chain == c
  {
    MapIndex(rules, Anon());
  }

  lemma AnonOne(r: Rule)
    ensures AnonAll([r]) == [Anon()(r)]
  {
    assert Map([r], Anon()) == [Anon()(r)];
  }

  lemma AnonCarried(p: Rule, q: Rule, a: seq<Rule>, b: seq<Rule>)
    requires p.id == 0 && q.id == 0
    ensures AnonAll([p, q] + Renumber(a + b, 0)) == [p, q] + (AnonAll(a) + AnonAll(b))
  {
    MapAppend([p, q], Renumber(a + b, 0), Anon());
    assert [p, q] == [p] + [q];
    AnonOne(p);
    AnonOne(q);
    MapAppend([p], [q], Anon());
    RenumberAnon(a + b, 0);
    MapAppend(a, b, Anon());
  }

  lemma ChainsOf(p: Rule, q: Rule, a: seq<Rule>, b: seq<Rule>)
    requires p.base.chain == CHAIN_INPUT && q.base.chain == CHAIN_OUTPUT
    requires (forall r | r in a :: r.base.chain == CHAIN_INPUT) && (forall r | r in b :: r.base.chain == CHAIN_OUTPUT)
    ensures Replayed([p, q] + (a + b)) == [p] + a + ([q] + b)
  {
    var s := [p, q] + (a + b);
    ByChain(s, CHAIN_INPUT);
    ByChain(s, CHAIN_OUTPUT);
    OneChain(p, q, a, b, CHAIN_INPUT);
    OneChain(p, q, a, b, CHAIN_OUTPUT);
  }

  lemma OneChain(p: Rule, q: Rule, a: seq<Rule>, b: seq<Rule>, c: u8)
    requires p.base.chain == CHAIN_INPUT && q.base.chain == CHAIN_OUTPUT && (c == CHAIN_INPUT || c == CHAIN_OUTPUT)
    requires (forall r | r in a :: r.base.chain == CHAIN_INPUT) && (forall r | r in b :: r.base.chain == CHAIN_OUTPUT)
    ensures Filter([p, q] + (a + b), OnChain(c)) == if c == CHAIN_INPUT then [p] + a else [q] + b
  {
    FilterAppend([p, q], a + b, OnChain(c));
    FilterAppend(a, b, OnChain(c));
    OwnChain(a, CHAIN_INPUT, c);
    OwnChain(b, CHAIN_OUTPUT, c);
    assert [p, q] == [p] + [q];
    FilterAppend([p], [q], OnChain(c));
    OwnChain([p], CHAIN_INPUT, c);
    OwnChain([q], CHAIN_OUTPUT, c);
    assert a + [] == a && [] + b == b && [p] + [] == [p] && [] + [q] == [q];
  }

  lemma PartAddable(f: Firewall, inbound: bool, pattern: Rule)
    requires Sound(f)
    ensures Addable(AnonAll(Part(f, inbound, pattern)))
  {
    var c, s := Chain(f, inbound), Part(f, inbound, pattern);
    MapIndex(s, Anon());
    forall i, j | 0 <= i < j < |c|
      ensures c[i].base != c[j].base
    {
      FilterDistinct(f.rules, OnChain(ChainOf(inbound)), i, j);
    }
    forall i, j | 0 <= i < j < |s| ensures s[i].base != s[j].base { FilterDistinct(c, Selects(pattern), i, j); }
    PartOfChain(f, inbound, pattern);
    forall i | 0 <= i < |s| ensures !PolicyRule(s[i].base) { assert s[i] in s; }
  }

  lemma PartIsOwn(f: Firewall, inbound: bool, pattern: Rule)
    ensures forall r | r in AnonAll(Part(f, inbound, pattern)) :: r.base.chain == ChainOf(inbound)
  {
    PartOfChain(f, inbound, pattern);
    AnonChain(Part(f, inbound, pattern), ChainOf(inbound));
  }

  /** Adding two chains' rules, each behind its policy record, to an empty kernel. */
  lemma AddBothChains(p: seq<Rule>, a: seq<Rule>, q: seq<Rule>, b: seq<Rule>)
    requires (forall r | r in p || r in q :: PolicyRule(r.base)) && Addable(a) && Addable(b)
    requires (forall r | r in a :: r.base.chain == CHAIN_INPUT) && (forall r | r in b :: r.base.chain == CHAIN_OUTPUT)
    ensures AddAll(LOADED, p + a + (q + b)) == LOADED.(rules := a + b)
  {
    var g := LOADED.(rules := a);
    hide AddAll;
    AddAllAppend(LOADED, p + a, q + b);
    AddAllAppend(LOADED, p, a);
    AddAllKnown(LOADED, p);
    AddAllNew(LOADED, a);
    assert LOADED.rules + a == a;
    AddAllAppend(g, q, b);
    AddAllKnown(g, q);
    forall r | r in b ensures !Stored(g.rules, r.base) {
      forall i | 0 <= i < |a| ensures a[i].base != r.base { assert a[i] in a; }
    }
    AddAllNew(g, b);
  }

  lemma CutAnon(rules: seq<Rule>, n: nat)
    ensures AnonAll(Cut(rules, n)) == Cut(AnonAll(rules), n)
  {
    MapIndex(rules, Anon());
    MapIndex(Cut(rules, n), Anon());
  }

  /** What is left of `n` once the first `k` are taken. */
  function Beyond(n: nat, k: nat): nat { if n <= k then 0 else n - k }

  lemma CutAppend<T>(a: seq<T>, b: seq<T>, n: nat)
    ensures Cut(a + b, n) == Cut(a, n) + Cut(b, Beyond(n, |a|))
  {
  }

  /** The beginning of a listing, replayed: each policy record before its chain. */
  lemma ReplayedCut(p: Rule, q: Rule, a: seq<Rule>, b: seq<Rule>, n: nat)
    requires p.base.chain == CHAIN_INPUT && q.base.chain == CHAIN_OUTPUT
    requires (forall r | r in a :: r.base.chain == CHAIN_INPUT) && (forall r | r in b :: r.base.chain == CHAIN_OUTPUT)
    ensures Replayed(Cut([p, q] + (a + b), n)) ==
      Cut([p], n) + Cut(a, Beyond(n, 2)) + (Cut([q], Beyond(n, 1)) + Cut(b, Beyond(n, 2 + |a|)))
  {
    var k := Beyond(n, 2);
    var s := Cut([p, q] + (a + b), n);
    CutAppend([p, q], a + b, n);
    CutAppend(a, b, k);
    hide Replayed;
    if n >= 2 {
      ChainsOf(p, q, Cut(a, k), Cut(b, Beyond(k, |a|)));
    } else if n == 1 {
      assert s == [p];
      OnePolicy(p);
    } else {
      NonePlayed();
      assert s == [];
    }
  }

  lemma NonePlayed()
    ensures Replayed([]) == []
  {
  }

  lemma OnePolicy(p: Rule)
    requires p.base.chain == CHAIN_INPUT
    ensures Replayed([p]) == [p]
  {
    ByChain([p], CHAIN_INPUT);
    ByChain([p], CHAIN_OUTPUT);
    OwnChain([p], CHAIN_INPUT, CHAIN_INPUT);
    OwnChain([p], CHAIN_INPUT, CHAIN_OUTPUT);
  }

  /** What the replay of a saved listing holds, ids apart. */
  lemma ReplayedSaved(f: Firewall, pattern: Rule, n: nat, junk: nat -> u32)
    ensures var (a, b) := (AnonAll(Part(f, true, pattern)), AnonAll(Part(f, false, pattern)));
      AnonAll(Replayed(DecodeAll(SavedUpTo(f, pattern, n), junk, 0))) ==
        Cut([PolicyRecord(CHAIN_INPUT, f.inPolicy)], n) + Cut(a, Beyond(n, 2))
        + (Cut([PolicyRecord(CHAIN_OUTPUT, f.outPolicy)], Beyond(n, 1)) + Cut(b, Beyond(n, 2 + |a|)))
  {
    var p, q := PolicyRecord(CHAIN_INPUT, f.inPolicy), PolicyRecord(CHAIN_OUTPUT, f.outPolicy);
    var c := Carried(f, pattern);
    assert c == [p, q] + Renumber(Part(f, true, pattern) + Part(f, false, pattern), 0);
    PartIsOwn(f, true, pattern);
    PartIsOwn(f, false, pattern);
    hide Carried, Part, Replayed, DecodeAll, EncodeAll, PolicyRecord, Cut;
    LoadsWhatWasSaved(Cut(c, n), junk, 0);
    ReplayedAnon(DecodeAll(SavedUpTo(f, pattern, n), junk, 0));
    CutAnon(c, n);
    AnonCarried(p, q, Part(f, true, pattern), Part(f, false, pattern));
    ReplayedCut(p, q, AnonAll(Part(f, true, pattern)), AnonAll(Part(f, false, pattern)), n);
  }

  lemma AddSaved(rules: seq<Rule>, p: Rule, a: seq<Rule>, q: Rule, b: seq<Rule>, n: nat)
    requires PolicyRule(p.base) && PolicyRule(q.base)
    requires AnonAll(rules) ==
      Cut([p], n) + Cut(a, Beyond(n, 2)) + (Cut([q], Beyond(n, 1)) + Cut(b, Beyond(n, 2 + |a|)))
    requires Addable(a) && Addable(b)
    requires (forall r | r in a :: r.base.chain == CHAIN_INPUT) && (forall r | r in b :: r.base.chain == CHAIN_OUTPUT)
    ensures Nameless(AddAll(LOADED, rules)) == LOADED.(rules := Cut(a + b, Beyond(n, 2)))
  {
    var a', b' := Cut(a, Beyond(n, 2)), Cut(b, Beyond(n, 2 + |a|));
    assert Addable(a') && Addable(b');
    hide Addable, AddAll;
    AddAllAnon(LOADED, rules);
    assert Nameless(LOADED) == LOADED;
    AddBothChains(Cut([p], n), a', Cut([q], Beyond(n, 1)), b');
    CutAppend(a, b, Beyond(n, 2));
  }

  lemma ListedAnon(f: Firewall, pattern: Rule)
    ensures AnonAll(Listed(f, pattern)) == AnonAll(Part(f, true, pattern)) + AnonAll(Part(f, false, pattern))
  {
    MapAppend(Part(f, true, pattern), Part(f, false, pattern), Anon());
  }

  /** A start into an empty kernel takes over the saved rules, ids apart: when the listing
      behind the cache was cut after `n` messages, the first `n - 2` of them. */
  lemma RestartUpTo(f: Firewall, pattern: Rule, n: nat, junk: nat -> u32)
    requires Sound(f)
    ensures Nameless(Restarted(LOADED, SavedUpTo(f, pattern, n), junk)) ==
      LOADED.(rules := Cut(AnonAll(Listed(f, pattern)), Beyond(n, 2)))
  {
    var a, b := AnonAll(Part(f, true, pattern)), AnonAll(Part(f, false, pattern));
    hide Part, Listed, DecodeAll, SavedUpTo, Replayed, Addable, AddAll, Cut, Sound, AnonAll;
    ListedAnon(f, pattern);
    PartAddable(f, true, pattern);
    PartAddable(f, false, pattern);
    PartIsOwn(f, true, pattern);
    PartIsOwn(f, false, pattern);
    ReplayedSaved(f, pattern, n, junk);
    AddSaved(Replayed(DecodeAll(SavedUpTo(f, pattern, n), junk, 0)),
             PolicyRecord(CHAIN_INPUT, f.inPolicy), a, PolicyRecord(CHAIN_OUTPUT, f.outPolicy), b, n);
  }

  lemma ListedAll(f: Firewall)
    ensures Listed(f, ChainPattern(CHAIN_ALL)) == Chain(f, true) + Chain(f, false)
  {
    FilterTrivial(Chain(f, true), Selects(ChainPattern(CHAIN_ALL)));
    FilterTrivial(Chain(f, false), Selects(ChainPattern(CHAIN_ALL)));
  }

  lemma CarriedLength(f: Firewall, pattern: Rule)
    ensures |Carried(f, pattern)| == 2 + |Listed(f, pattern)|
  {
    if Listed(f, pattern) != [] { RenumberAt(Listed(f, pattern), 0, 0); }
  }

  lemma SoundStopStart(f: Firewall, junk: nat -> u32)
    requires Sound(f)
    ensures Nameless(Restarted(LOADED, Saved(f), junk)) ==
      LOADED.(rules := AnonAll(Chain(f, true)) + AnonAll(Chain(f, false)))
  {
    var pattern := ChainPattern(CHAIN_ALL);
    RestartUpTo(f, pattern, |Carried(f, pattern)|, junk);
    CarriedLength(f, pattern);
    ListedAll(f);
    MapAppend(Chain(f, true), Chain(f, false), Anon());
    MapIndex(Listed(f, pattern), Anon());
    hide Carried, Listed, Restarted, Chain, EncodeAll, AnonAll;
  }

  /** A clean stop and a start into an empty kernel bring back both chains: the same
      rules, in the same order, with the same `off` and `policy`; the saved policy records
      add nothing, and both chains accept again. Ids are not kept. */
  lemma StopStart(ms: seq<Msg>, junk: nat -> u32)
    ensures var f := Run(LOADED, ms);
      Nameless(Restarted(LOADED, Saved(f), junk)) ==
        LOADED.(rules := AnonAll(Chain(f, true)) + AnonAll(Chain(f, false)))
  {
    var f := Run(LOADED, ms);
    RunSound(LOADED, ms);
    SoundStopStart(f, junk);
  }

  /** A stop whose listing was cut after `n` messages still brings both chains back exactly
      when all rules came through, or there were none. */
  lemma CutStopRestoresIff(f: Firewall, n: nat, junk: nat -> u32)
    requires Sound(f)
    ensures Nameless(Restarted(LOADED, SavedUpTo(f, ChainPattern(CHAIN_ALL), n), junk)) ==
      Nameless(Restarted(LOADED, Saved(f), junk))
      <==> n >= 2 + |Listed(f, ChainPattern(CHAIN_ALL))| || Listed(f, ChainPattern(CHAIN_ALL)) == []
  {
    var pattern := ChainPattern(CHAIN_ALL);
    RestartUpTo(f, pattern, n, junk);
    RestartUpTo(f, pattern, |Carried(f, pattern)|, junk);
    CarriedLength(f, pattern);
    MapIndex(Listed(f, pattern), Anon());
    hide Carried, Listed, Restarted, EncodeAll, AnonAll;
  }

  // ----- what else a restart does, and does not -----

  /** A list replayed into the kernel that still holds its rules changes nothing, wherever
      it was cut. */
  lemma ReplayChangesNothing(f: Firewall, pattern: Rule, n: nat, junk: nat -> u32)
    ensures Restarted(f, SavedUpTo(f, pattern, n), junk) == f
  {
    var rules := Replayed(DecodeAll(SavedUpTo(f, pattern, n), junk, 0));
    var a, b := AnonAll(Part(f, true, pattern)), AnonAll(Part(f, false, pattern));
    var p, q := PolicyRecord(CHAIN_INPUT, f.inPolicy), PolicyRecord(CHAIN_OUTPUT, f.outPolicy);
    ReplayedSaved(f, pattern, n, junk);
    StoredPart(f, true, pattern);
    StoredPart(f, false, pattern);
    KnownAnon(f, rules, Cut([p], n), Cut(a, Beyond(n, 2)), Cut([q], Beyond(n, 1)), Cut(b, Beyond(n, 2 + |a|)));
    hide AddAll, Replayed, DecodeAll, SavedUpTo;
    AddAllKnown(f, rules);
  }

  lemma StoredPart(f: Firewall, inbound: bool, pattern: Rule)
    ensures forall r | r in AnonAll(Part(f, inbound, pattern)) :: Stored(f.rules, r.base)
  {
    var c := Part(f, inbound, pattern);
    MapIndex(c, Anon());
    PartOfChain(f, inbound, pattern);
    forall i | 0 <= i < |c| ensures Stored(f.rules, c[i].base) { assert c[i] in c; }
  }

  lemma KnownAnon(f: Firewall, rules: seq<Rule>, p: seq<Rule>, a: seq<Rule>, q: seq<Rule>, b: seq<Rule>)
    requires AnonAll(rules) == p + a + (q + b)
    requires forall r | r in p || r in q :: PolicyRule(r.base)
    requires forall r | r in a || r in b :: Stored(f.rules, r.base)
    ensures forall r | r in rules :: PolicyRule(r.base) || Stored(f.rules, r.base)
  {
    MapIndex(rules, Anon());
    hide Stored;
    forall r | r in rules ensures PolicyRule(r.base) || Stored(f.rules, r.base) {
      var i :| 0 <= i < |rules| && rules[i] == r;
      assert Map(rules, Anon())[i] == Anon()(r);
      assert Map(rules, Anon())[i] in Map(rules, Anon());
    }
  }

  lemma {:induction false} FirstMatchAnon(rules: seq<Rule>, p: Packet)
    ensures FirstMatch(AnonAll(rules), p) ==
      match FirstMatch(rules, p) case None => None case Some(r) => Some(Anon()(r))
  {
    if rules == [] {
    } else {
      FirstMatchAnon(rules[1..], p);
      assert AnonAll(rules)[1..] == AnonAll(rules[1..]);
    }
  }

  lemma VerdictAnon(f: Firewall, p: Packet, inbound: bool)
    ensures Verdict(Nameless(f), p, inbound) == Verdict(f, p, inbound)
  {
    FilterAnon(f.rules, OnChain(ChainOf(inbound)));
    FirstMatchAnon(Chain(f, inbound), p);
  }

  /** A restart keeps a packet's verdict exactly when a rule decides the packet or the
      chain's policy was to accept: chain policies are not restored. */
  lemma VerdictKeptIff(ms: seq<Msg>, junk: nat -> u32, p: Packet, inbound: bool)
    requires p.proto == TCP || p.proto == UDP
    ensures var f := Run(LOADED, ms);
      Verdict(Restarted(LOADED, Saved(f), junk), p, inbound) == Verdict(f, p, inbound)
      <==> FirstMatch(Chain(f, inbound), p).Some? || PolicyOf(f, inbound) == NF_ACCEPT
  {
    var f := Run(LOADED, ms);
    var g := Restarted(LOADED, Saved(f), junk);
    RunSound(LOADED, ms);
    SoundStopStart(f, junk);
    VerdictAnon(g, p, inbound);
    RestoredChain(f, inbound);
    FirstMatchAnon(Chain(f, inbound), p);
    hide Restarted, Saved, Nameless, Matches, FirstMatch;
  }

  lemma ChainIsOwn(f: Firewall, inbound: bool)
    ensures forall r | r in AnonAll(Chain(f, inbound)) :: r.base.chain == ChainOf(inbound)
  {
    forall r | r in Chain(f, inbound)
      ensures r.base.chain == ChainOf(inbound)
    {
      FilterIn(f.rules, OnChain(ChainOf(inbound)), r);
    }
    AnonChain(Chain(f, inbound), ChainOf(inbound));
  }

  lemma RestoredChain(f: Firewall, inbound: bool)
    ensures Chain(LOADED.(rules := AnonAll(Chain(f, true)) + AnonAll(Chain(f, false))), inbound) ==
      AnonAll(Chain(f, inbound))
  {
    var a, b := AnonAll(Chain(f, true)), AnonAll(Chain(f, false));
    ChainIsOwn(f, true);
    ChainIsOwn(f, false);
    FilterAppend(a, b, OnChain(ChainOf(inbound)));
    OwnChain(a, CHAIN_INPUT, ChainOf(inbound));
    OwnChain(b, CHAIN_OUTPUT, ChainOf(inbound));
    assert a + [] == a && [] + b == b;
  }

  /** The cache file started() leaves: it asks the kernel for INPUT only. */
  function Resaved(f: Firewall): seq<u8> { EncodeAll(Carried(f, ChainPattern(CHAIN_INPUT))) }

  lemma ListedInput(f: Firewall)
    ensures Listed(f, ChainPattern(CHAIN_INPUT)) == Chain(f, true)
  {
    forall inbound: bool, r | r in Chain(f, inbound) ensures r.base.chain == ChainOf(inbound) {
      FilterIn(f.rules, OnChain(ChainOf(inbound)), r);
    }
    FilterTrivial(Chain(f, true), Selects(ChainPattern(CHAIN_INPUT)));
    FilterTrivial(Chain(f, false), Selects(ChainPattern(CHAIN_INPUT)));
    assert Chain(f, true) + [] == Chain(f, true);
  }

  lemma CrashStart(f: Firewall, junk: nat -> u32)
    requires Sound(f)
    ensures Nameless(Restarted(LOADED, Resaved(f), junk)) == LOADED.(rules := AnonAll(Chain(f, true)))
  {
    var pattern := ChainPattern(CHAIN_INPUT);
    RestartUpTo(f, pattern, |Carried(f, pattern)|, junk);
    CarriedLength(f, pattern);
    ListedInput(f);
    MapIndex(Listed(f, pattern), Anon());
    hide Carried, Listed, Restarted, Chain, EncodeAll, AnonAll;
  }

  /** A start that follows a start with no stop between them restores both chains exactly
      when OUTPUT held no rules. */
  lemma CrashRestoresIff(f: Firewall, junk: nat -> u32)
    requires Sound(f)
    ensures Nameless(Restarted(LOADED, Resaved(f), junk)) == Nameless(Restarted(LOADED, Saved(f), junk))
      <==> Chain(f, false) == []
  {
    CrashStart(f, junk);
    SoundStopStart(f, junk);
    MapIndex(Chain(f, false), Anon());
    hide Restarted, Resaved, Saved, Nameless, Chain;
    var a, b := AnonAll(Chain(f, true)), AnonAll(Chain(f, false));
    assert |a + b| == |a| + |b| && a + [] == a;
  }
}
