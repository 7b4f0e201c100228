/** What the kernel module computes, on one ordered list of rules: the message
    dispatcher of nl_int.c and the packet verdict of bf_module.c. */
module RuleSpec {
  import opened Seqs
  import opened TrxData

  datatype Firewall = Firewall(rules: seq<Rule>, inPolicy: u8, outPolicy: u8)

  datatype Msg =
    | AddRule(fr: Rule)
    | UpdateRule(fr: Rule)
    | DeleteRule(fr: Rule)
    | DeleteAllRules
    | ChainPolicy(fr: Rule)

  /** The MSG_ERR answer; a policy record is dropped without one. */
  datatype Reply = NoReply | Ok | AlreadyHaveRule(fr: Rule) | MissingRule(fr: Rule)

  function HasBase(b: Base): Rule -> bool { (r: Rule) => r.base == b }

  function OnChain(c: u8): Rule -> bool { (r: Rule) => r.base.chain == c }

  predicate Stored(rules: seq<Rule>, b: Base) { exists i | 0 <= i < |rules| :: rules[i].base == b }

  /** An update changes `off` and `policy`, each unless the message says none. */
  function Updated(r: Rule, fr: Rule): Rule {
    r.(off := if fr.off != SW_NONE then fr.off else r.off,
       policy := if fr.policy != POLICY_NONE then fr.policy else r.policy)
  }

  function UpdateWhere(fr: Rule): Rule -> Rule { (r: Rule) => if r.base == fr.base then Updated(r, fr) else r }

  function Step(f: Firewall, m: Msg): (Firewall, Reply) {
    match m
    case AddRule(fr) =>
      if PolicyRule(fr.base) then (f, NoReply)
      else if Stored(f.rules, fr.base) then (f, AlreadyHaveRule(fr))
      else (f.(rules := f.rules + [fr]), Ok)
    case UpdateRule(fr) =>
      if Stored(f.rules, fr.base) then (f.(rules := Map(f.rules, UpdateWhere(fr))), Ok)
      else (f, MissingRule(fr))
    case DeleteRule(fr) =>
      if Stored(f.rules, fr.base) then (f.(rules := Filter(f.rules, Not(HasBase(fr.base)))), Ok)
      else (f, MissingRule(fr))
    case DeleteAllRules => (f.(rules := []), Ok)
    case ChainPolicy(fr) =>
      var p := ApplyPolicy(fr.policy);
      (if fr.base.chain == CHAIN_INPUT then f.(inPolicy := p)
       else if fr.base.chain == CHAIN_OUTPUT then f.(outPolicy := p)
       else if fr.base.chain == CHAIN_ALL then f.(inPolicy := p, outPolicy := p)
       else f, Ok)
  }

  const LOADED := Firewall([], NF_ACCEPT, NF_ACCEPT)

  function Run(f: Firewall, ms: seq<Msg>): Firewall
    decreases ms
  {
    if ms == [] then f else Run(Step(f, ms[0]).0, ms[1..])
  }

  // ----- packets -----

  const TCP: u8 := 6
  const UDP: u8 := 17

  /** Header fields hook_func reads: ports after ntohs, addresses as loaded from the header. */
  datatype Packet = Packet(proto: u8, srcPort: u16, dstPort: u16, sAddr: u32, dAddr: u32)

  function Swap16(x: u16): u16 { x % 0x100 * 0x100 + x / 0x100 }

  /** ntohs given a 32-bit word: truncated first, then swapped. */
  function Ntohs(x: u32): u16 { Swap16(x % 0x1_0000) }

  function Ntohl(x: u32): u32 { Swap16(x % 0x1_0000) * 0x1_0000 + Swap16(x / 0x1_0000) }

  /** The match condition as written: both rule addresses are held against the packet's
      source address, and for TCP that address goes through ntohs. */
  predicate Matches(r: Rule, p: Packet) {
    && r.base.proto == p.proto
    && Wild(r.base.srcPort, p.srcPort)
    && Wild(r.base.dstPort, p.dstPort)
    && var a := if p.proto == UDP then Ntohl(p.sAddr) else Ntohs(p.sAddr);
    && Wild(r.base.sAddr, a)
    && Wild(r.base.dAddr, a)
    && r.off == SW_NO
  }

  function FirstMatch(rules: seq<Rule>, p: Packet): Option<Rule> {
    if rules == [] then None else if Matches(rules[0], p) then Some(rules[0]) else FirstMatch(rules[1..], p)
  }

  function ChainOf(inbound: bool): u8 { if inbound then CHAIN_INPUT else CHAIN_OUTPUT }

  function Chain(f: Firewall, inbound: bool): seq<Rule> { Filter(f.rules, OnChain(ChainOf(inbound))) }

  function Decide(m: Option<Rule>, policy: u8): u8 {
    match m case Some(r) => ApplyPolicy(r.policy) case None => policy
  }

  function Verdict(f: Firewall, p: Packet, inbound: bool): u8 {
    if p.proto != TCP && p.proto != UDP then NF_ACCEPT
    else Decide(FirstMatch(Chain(f, inbound), p), if inbound then f.inPolicy else f.outPolicy)
  }

  // ----- what holds of every run -----

  /** Keys are unique, no stored rule looks like a policy record, policies are verdicts. */
  ghost predicate Sound(f: Firewall) {
    && (forall i, j | 0 <= i < j < |f.rules| :: f.rules[i].base != f.rules[j].base)
    && (forall i | 0 <= i < |f.rules| :: !PolicyRule(f.rules[i].base))
    && f.inPolicy in {NF_ACCEPT, NF_DROP} && f.outPolicy in {NF_ACCEPT, NF_DROP}
  }

  lemma {:induction false} FilterDistinct(s: seq<Rule>, p: Rule -> bool, i: nat, j: nat)
    requires forall x, y | 0 <= x < y < |s| :: s[x].base != s[y].base
    requires i < j < |Filter(s, p)|
    ensures Filter(s, p)[i].base != Filter(s, p)[j].base
  {
    if p(s[0]) {
      if i == 0 {
        assert Filter(s, p)[j] == Filter(s[1..], p)[j-1];
        FilterIn(s[1..], p, Filter(s[1..], p)[j-1]);
      } else {
        FilterDistinct(s[1..], p, i - 1, j - 1);
      }
    } else {
      FilterDistinct(s[1..], p, i, j);
    }
  }

  /** Every message keeps keys unique, policy records out and chain policies verdicts. */
  lemma StepSound(f: Firewall, m: Msg)
    requires Sound(f)
    ensures Sound(Step(f, m).0)
  {
    match m
    case UpdateRule(fr) =>
      hide Updated;
      MapIndex(f.rules, UpdateWhere(fr));
    case DeleteRule(fr) =>
      var p := Not(HasBase(fr.base));
      forall i, j | 0 <= i < j < |Filter(f.rules, p)| ensures Filter(f.rules, p)[i].base != Filter(f.rules, p)[j].base {
        FilterDistinct(f.rules, p, i, j);
      }
      forall i | 0 <= i < |Filter(f.rules, p)| ensures !PolicyRule(Filter(f.rules, p)[i].base) {
        FilterIn(f.rules, p, Filter(f.rules, p)[i]);
      }
    case _ =>
  }

  lemma {:induction false} RunSound(f: Firewall, ms: seq<Msg>)
    requires Sound(f)
    ensures Sound(Run(f, ms))
    decreases ms
  {
    if ms == [] {
    } else {
      StepSound(f, ms[0]);
      RunSound(Step(f, ms[0]).0, ms[1..]);
    }
  }

  // ----- one chain depends on its own messages only -----

  function PolicyOf(f: Firewall, inbound: bool): u8 { if inbound then f.inPolicy else f.outPolicy }

  /** Messages that can touch the chain packets of this direction walk. */
  predicate Concerns(m: Msg, inbound: bool) {
    match m
    case DeleteAllRules => true
    case ChainPolicy(fr) => fr.base.chain == ChainOf(inbound) || fr.base.chain == CHAIN_ALL
    case _ => m.fr.base.chain == ChainOf(inbound)
  }

  function Concerning(inbound: bool): Msg -> bool { (m: Msg) => Concerns(m, inbound) }

  predicate Alike(f: Firewall, g: Firewall, inbound: bool) {
    Chain(f, inbound) == Chain(g, inbound) && PolicyOf(f, inbound) == PolicyOf(g, inbound)
  }

  lemma {:induction false} UpdateCommutes(s: seq<Rule>, fr: Rule, c: u8)
    ensures Filter(Map(s, UpdateWhere(fr)), OnChain(c)) == Map(Filter(s, OnChain(c)), UpdateWhere(fr))
  {
    if s == [] {
    } else {
      UpdateCommutes(s[1..], fr, c);
      var h := if OnChain(c)(s[0]) then [s[0]] else [];
      MapAppend(h, Filter(s[1..], OnChain(c)), UpdateWhere(fr));
      assert Map(s, UpdateWhere(fr))[1..] == Map(s[1..], UpdateWhere(fr));
    }
  }

  lemma {:induction false} MapFixed(s: seq<Rule>, fr: Rule)
    requires forall r | r in s :: r.base != fr.base
    ensures Map(s, UpdateWhere(fr)) == s
  {
    if s == [] {
    } else {
      MapFixed(s[1..], fr);
    }
  }

  /** A rule of chain `c` is stored exactly when it is on that chain. */
  lemma StoredOnChain(s: seq<Rule>, b: Base, c: u8)
    requires b.chain == c
    ensures Stored(s, b) <==> Stored(Filter(s, OnChain(c)), b)
  {
    if Stored(s, b) {
      var i :| 0 <= i < |s| && s[i].base == b;
      FilterIn(s, OnChain(c), s[i]);
    }
    var t := Filter(s, OnChain(c));
    if Stored(t, b) {
      var i :| 0 <= i < |t| && t[i].base == b;
      FilterIn(s, OnChain(c), t[i]);
    }
  }

  /** A message for the other chain leaves this one alone. */
  lemma StepElsewhere(f: Firewall, m: Msg, inbound: bool)
    requires !Concerns(m, inbound)
    ensures Alike(Step(f, m).0, f, inbound)
  {
    var c := ChainOf(inbound);
    match m
    case AddRule(fr) =>
      FilterAppend(f.rules, [fr], OnChain(c));
      assert Filter([fr], OnChain(c)) == [];
    case UpdateRule(fr) =>
      UpdateCommutes(f.rules, fr, c);
      forall r | r in Chain(f, inbound) ensures r.base != fr.base { FilterIn(f.rules, OnChain(c), r); }
      MapFixed(Chain(f, inbound), fr);
    case DeleteRule(fr) =>
      FilterTwice(f.rules, Not(HasBase(fr.base)), OnChain(c));
      forall r | r in Chain(f, inbound) ensures Not(HasBase(fr.base))(r) { FilterIn(f.rules, OnChain(c), r); }
      FilterTrivial(Chain(f, inbound), Not(HasBase(fr.base)));
    case _ =>
  }

  /** The same message takes alike firewalls to alike firewalls, with the same answer. */
  lemma StepAlike(f: Firewall, g: Firewall, m: Msg, inbound: bool)
    requires Alike(f, g, inbound) && Concerns(m, inbound)
    ensures Alike(Step(f, m).0, Step(g, m).0, inbound)
    ensures Step(f, m).1 == Step(g, m).1
  {
    var c := ChainOf(inbound);
    match m
    case AddRule(fr) =>
      StoredOnChain(f.rules, fr.base, c);
      StoredOnChain(g.rules, fr.base, c);
      FilterAppend(f.rules, [fr], OnChain(c));
      FilterAppend(g.rules, [fr], OnChain(c));
    case UpdateRule(fr) =>
      StoredOnChain(f.rules, fr.base, c);
      StoredOnChain(g.rules, fr.base, c);
      UpdateCommutes(f.rules, fr, c);
      UpdateCommutes(g.rules, fr, c);
    case DeleteRule(fr) =>
      StoredOnChain(f.rules, fr.base, c);
      StoredOnChain(g.rules, fr.base, c);
      FilterTwice(f.rules, Not(HasBase(fr.base)), OnChain(c));
      FilterTwice(g.rules, Not(HasBase(fr.base)), OnChain(c));
    case _ =>
  }

  lemma {:induction false} RunAlike(f: Firewall, g: Firewall, ms: seq<Msg>, inbound: bool)
    requires Alike(f, g, inbound)
    ensures Alike(Run(f, ms), Run(g, Filter(ms, Concerning(inbound))), inbound)
    decreases ms
  {
    if ms == [] {
    } else {
      var f' := Step(f, ms[0]).0;
      var rest := Filter(ms[1..], Concerning(inbound));
      if Concerns(ms[0], inbound) {
        StepAlike(f, g, ms[0], inbound);
        RunAlike(f', Step(g, ms[0]).0, ms[1..], inbound);
        assert ([ms[0]] + rest)[1..] == rest;
      } else {
        StepElsewhere(f, ms[0], inbound);
        RunAlike(f', g, ms[1..], inbound);
        assert [] + rest == rest;
      }
    }
  }

  /** Over any run, a packet's verdict is what it would be had only the messages for its
      own chain been sent. */
  lemma OtherChainNeverMatters(ms: seq<Msg>, p: Packet, inbound: bool)
    ensures Verdict(Run(LOADED, ms), p, inbound) == Verdict(Run(LOADED, Filter(ms, Concerning(inbound))), p, inbound)
  {
    RunAlike(LOADED, LOADED, ms, inbound);
  }

  // ----- first match -----

  lemma FirstMatchFrom(rules: seq<Rule>, i: nat, p: Packet)
    requires i < |rules|
    ensures FirstMatch(rules[i..], p) == if Matches(rules[i], p) then Some(rules[i]) else FirstMatch(rules[i+1..], p)
  {
    assert rules[i..][1..] == rules[i+1..];
  }

  lemma FirstMatchEmpty(p: Packet)
    ensures FirstMatch([], p) == None
  {
  }

  /** The answer is the first matching rule in order, and none means none matches. */
  lemma {:induction false} FirstMatchIsFirst(rules: seq<Rule>, p: Packet, i: nat)
    requires i < |rules|
    ensures (Matches(rules[i], p) && forall j | 0 <= j < i :: !Matches(rules[j], p)) ==>
      FirstMatch(rules, p) == Some(rules[i])
    ensures FirstMatch(rules, p).None? ==> !Matches(rules[i], p)
    ensures FirstMatch(rules, p).Some? ==> FirstMatch(rules, p).value in rules && Matches(FirstMatch(rules, p).value, p)
  {
    if Matches(rules[0], p) || |rules| == 1 {
    } else {
      FirstMatchIsFirst(rules[1..], p, if i == 0 then 0 else i - 1);
      assert i > 0 ==> rules[i] == rules[1..][i-1];
      if i > 0 && forall j | 0 <= j < i :: !Matches(rules[j], p) {
        forall j | 0 <= j < i - 1 ensures !Matches(rules[1..][j], p) { assert rules[1..][j] == rules[j+1]; }
      }
    }
  }

  lemma {:induction false} FirstMatchAppend(a: seq<Rule>, b: seq<Rule>, p: Packet)
    ensures FirstMatch(a + b, p) == if FirstMatch(a, p).Some? then FirstMatch(a, p) else FirstMatch(b, p)
  {
    if a == [] {
      assert a + b == b;
    } else {
      FirstMatchAppend(a[1..], b, p);
      assert (a + b)[1..] == a[1..] + b;
    }
  }

  function Enabled(): Rule -> bool { (r: Rule) => r.off == SW_NO }

  lemma {:induction false} DisabledSkipped(rules: seq<Rule>, p: Packet)
    ensures FirstMatch(rules, p) == FirstMatch(Filter(rules, Enabled()), p)
  {
    if rules == [] {
    } else {
      DisabledSkipped(rules[1..], p);
      var rest := Filter(rules[1..], Enabled());
      if Enabled()(rules[0]) {
        assert ([rules[0]] + rest)[1..] == rest;
      } else {
        assert [] + rest == rest;
      }
    }
  }

  /** An accepted rule is consulted last: it decides just the packets no earlier rule of
      its chain decides. */
  lemma AddedRuleComesLast(f: Firewall, fr: Rule, p: Packet, inbound: bool)
    requires !PolicyRule(fr.base) && !Stored(f.rules, fr.base) && (p.proto == TCP || p.proto == UDP)
    ensures Verdict(Step(f, AddRule(fr)).0, p, inbound) ==
      if FirstMatch(Chain(f, inbound), p).None? && fr.base.chain == ChainOf(inbound) && Matches(fr, p)
      then ApplyPolicy(fr.policy) else Verdict(f, p, inbound)
  {
    FilterAppend(f.rules, [fr], OnChain(ChainOf(inbound)));
    FirstMatchAppend(Chain(f, inbound), Filter([fr], OnChain(ChainOf(inbound))), p);
  }

  /** With unique keys, a delete takes out one rule and keeps the order of the others. */
  lemma {:induction false} DeleteTakesOne(rules: seq<Rule>, i: nat)
    requires i < |rules| && forall x, y | 0 <= x < y < |rules| :: rules[x].base != rules[y].base
    ensures Filter(rules, Not(HasBase(rules[i].base))) == RemoveAt(rules, i)
  {
    var p := Not(HasBase(rules[i].base));
    if i == 0 {
      FilterTrivial(rules[1..], p);
      assert RemoveAt(rules, 0) == rules[1..];
    } else {
      DeleteTakesOne(rules[1..], i - 1);
      assert rules[1..][i-1] == rules[i];
      assert RemoveAt(rules, i) == [rules[0]] + RemoveAt(rules[1..], i - 1);
    }
  }

  // ----- what the address comparisons amount to -----

  /** Matching as the field names promise: each address against its own header field. */
  predicate MatchesAsNamed(r: Rule, p: Packet) {
    && r.base.proto == p.proto
    && Wild(r.base.srcPort, p.srcPort)
    && Wild(r.base.dstPort, p.dstPort)
    && Wild(r.base.sAddr, Ntohl(p.sAddr))
    && Wild(r.base.dAddr, Ntohl(p.dAddr))
    && r.off == SW_NO
  }

  lemma Swap16Twice(x: u16)
    ensures Swap16(Swap16(x)) == x
  {
    var lo, hi := x % 0x100, x / 0x100;
    assert (lo * 0x100 + hi) % 0x100 == hi && (lo * 0x100 + hi) / 0x100 == lo;
  }

  lemma NtohlTwice(x: u32)
    ensures Ntohl(Ntohl(x)) == x
  {
    Swap16Twice(x % 0x1_0000);
    Swap16Twice(x / 0x1_0000);
    hide Swap16;
    var lo: int, hi: int := Swap16(x % 0x1_0000), Swap16(x / 0x1_0000);
    assert (lo * 0x1_0000 + hi) % 0x1_0000 == hi && (lo * 0x1_0000 + hi) / 0x1_0000 == lo;
  }

  lemma NtohsOfNtohl(x: u32)
    ensures Ntohs(Ntohl(x)) == x / 0x1_0000
  {
    var lo: int, hi: int := Swap16(x % 0x1_0000), Swap16(x / 0x1_0000);
    assert (lo * 0x1_0000 + hi) % 0x1_0000 == hi;
    Swap16Twice(x / 0x1_0000);
  }

  /** A packet whose addresses read as `s` and `d` in host order and that passes the
      port tests of `r`. */
  function Probe(r: Rule, s: u32, d: u32): Packet
    requires r.base.proto == TCP || r.base.proto == UDP
  {
    Packet(r.base.proto, r.base.srcPort, r.base.dstPort, Ntohl(s), Ntohl(d))
  }

  lemma TcpProbe(r: Rule)
    requires r.off == SW_NO && r.base.proto == TCP && (r.base.sAddr != 0 || r.base.dAddr != 0)
    ensures exists p: Packet :: p.proto == TCP && !Matches(r, p) && MatchesAsNamed(r, p)
  {
    var s: u32 := if r.base.sAddr == 0 then 1 else r.base.sAddr;
    NtohlTwice(s);
    NtohlTwice(r.base.dAddr);
    NtohsOfNtohl(s);
    hide Ntohl, Ntohs;
    var p := Probe(r, s, r.base.dAddr);
    assert Ntohs(p.sAddr) == s / 0x1_0000;
    assert !Matches(r, p) && MatchesAsNamed(r, p);
  }

  lemma UdpProbe(r: Rule)
    requires r.off == SW_NO && r.base.proto == UDP && r.base.dAddr != 0
    ensures exists p: Packet :: p.proto == UDP && Matches(r, p) != MatchesAsNamed(r, p)
  {
    hide Ntohl, Ntohs;
    var other: u32 := if r.base.dAddr == 1 then 2 else 1;
    var s: u32 := if r.base.sAddr == 0 then other else r.base.sAddr;
    NtohlTwice(s);
    NtohlTwice(r.base.dAddr);
    NtohlTwice(other);
    var p := Probe(r, s, if s == r.base.dAddr then other else r.base.dAddr);
    assert Matches(r, p) != MatchesAsNamed(r, p);
  }

  /** An enabled rule matches as its field names promise on all packets of its protocol
      exactly when it leaves the destination open and, for TCP, the source as well. */
  lemma MatchesAsNamedIff(r: Rule)
    requires r.off == SW_NO && (r.base.proto == TCP || r.base.proto == UDP)
    ensures (forall p: Packet | p.proto == r.base.proto :: Matches(r, p) == MatchesAsNamed(r, p))
       <==> r.base.dAddr == 0 && (r.base.proto == UDP || r.base.sAddr == 0)
  {
    if r.base.proto == TCP && (r.base.sAddr != 0 || r.base.dAddr != 0) {
      TcpProbe(r);
    } else if r.base.proto == UDP && r.base.dAddr != 0 {
      UdpProbe(r);
    }
  }
}
