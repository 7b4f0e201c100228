/** What RuleSpec's messages and verdicts come to, said field by field: what each message
    changes and answers, what a rule asks of a packet, and when a packet is dropped. */
module RuleLaws {
  import opened Seqs
  import opened TrxData
  import opened RuleSpec

  // ----- the messages -----

  /** A new rule that is no policy record is stored last, with the fields it came with;
      anything else leaves the store as it is. */
  lemma AddIs(f: Firewall, fr: Rule)
    ensures var (g, reply) := Step(f, AddRule(fr));
      && (PolicyRule(fr.base) ==> g == f && reply == NoReply)
      && (!PolicyRule(fr.base) && Stored(f.rules, fr.base) ==> g == f && reply == AlreadyHaveRule(fr))
      && (!PolicyRule(fr.base) && !Stored(f.rules, fr.base) ==>
            && reply == Ok && |g.rules| == |f.rules| + 1 && g.rules[..|f.rules|] == f.rules
            && g.rules[|f.rules|] == fr && g.inPolicy == f.inPolicy && g.outPolicy == f.outPolicy)
  {
  }

  /** An update of a stored key changes only the rules of that key, and in them only `off`
      and `policy`, each to what the message says unless it says none. */
  lemma UpdateIs(f: Firewall, fr: Rule, i: nat)
    requires i < |f.rules|
    ensures var (g, reply) := Step(f, UpdateRule(fr));
      && |g.rules| == |f.rules| && g.inPolicy == f.inPolicy && g.outPolicy == f.outPolicy
      && reply == (if Stored(f.rules, fr.base) then Ok else MissingRule(fr))
      && (f.rules[i].base != fr.base ==> g.rules[i] == f.rules[i])
      && (f.rules[i].base == fr.base ==>
            && g.rules[i].base == f.rules[i].base && g.rules[i].id == f.rules[i].id
            && (fr.policy == POLICY_NONE ==> g.rules[i].policy == f.rules[i].policy)
            && (fr.policy != POLICY_NONE ==> g.rules[i].policy == fr.policy)
            && (fr.off == SW_NONE ==> g.rules[i].off == f.rules[i].off)
            && (fr.off != SW_NONE ==> g.rules[i].off == fr.off))
  {
    MapIndex(f.rules, UpdateWhere(fr));
  }

  /** A delete of a stored key takes out its one rule, and no other, and keeps the order. */
  lemma DeleteIs(f: Firewall, fr: Rule, i: nat)
    requires Sound(f) && i < |f.rules| && f.rules[i].base == fr.base
    ensures var (g, reply) := Step(f, DeleteRule(fr));
      && reply == Ok && |g.rules| == |f.rules| - 1 && g.inPolicy == f.inPolicy && g.outPolicy == f.outPolicy
      && g.rules[..i] == f.rules[..i] && g.rules[i..] == f.rules[i+1..]
  {
    assert Stored(f.rules, fr.base);
    DeleteTakesOne(f.rules, i);
    var g := Step(f, DeleteRule(fr)).0;
    assert g.rules == f.rules[..i] + f.rules[i+1..];
  }

  /** What is not stored cannot be deleted, and a flush empties the store. */
  lemma DeleteOtherwise(f: Firewall, fr: Rule)
    ensures !Stored(f.rules, fr.base) ==> Step(f, DeleteRule(fr)) == (f, MissingRule(fr))
    ensures Step(f, DeleteAllRules) == (Firewall([], f.inPolicy, f.outPolicy), Ok)
  {
  }

  /** A policy message sets the policies of the chains it names, to accept only if it says
      so, and touches no rule. */
  lemma PolicyIs(f: Firewall, fr: Rule)
    ensures var (g, reply) := Step(f, ChainPolicy(fr));
      && reply == Ok && g.rules == f.rules
      && (fr.base.chain == CHAIN_INPUT || fr.base.chain == CHAIN_ALL ==>
            g.inPolicy == if fr.policy == POLICY_ACCEPT then NF_ACCEPT else NF_DROP)
      && (fr.base.chain == CHAIN_OUTPUT || fr.base.chain == CHAIN_ALL ==>
            g.outPolicy == if fr.policy == POLICY_ACCEPT then NF_ACCEPT else NF_DROP)
      && (fr.base.chain != CHAIN_INPUT && fr.base.chain != CHAIN_ALL ==> g.inPolicy == f.inPolicy)
      && (fr.base.chain != CHAIN_OUTPUT && fr.base.chain != CHAIN_ALL ==> g.outPolicy == f.outPolicy)
  {
  }

  // ----- the packet test -----

  /** Of the four bytes of an address as the header holds them, ntohl gives each its network
      weight, and ntohs sees the first two only. */
  lemma NtohBytes(a: u8, b: u8, c: u8, d: u8)
    ensures Ntohl(Value32([a, b, c, d])) == a * 0x100_0000 + b * 0x1_0000 + c * 0x100 + d
    ensures Ntohs(Value32([a, b, c, d])) == a * 0x100 + b
  {
    var a': int, b': int, c': int, d': int := a, b, c, d;
    var lo: u16, hi: u16 := a' + b' * 0x100, c' + d' * 0x100;
    assert Value32([a, b, c, d]) == lo + hi * 0x1_0000;
    assert Value32([a, b, c, d]) % 0x1_0000 == lo && Value32([a, b, c, d]) / 0x1_0000 == hi;
    assert lo % 0x100 == a && lo / 0x100 == b && hi % 0x100 == c && hi / 0x100 == d;
  }

  /** A rule asks of a packet what its set fields say: the two ports of the packet, and the
      packet's source address, whole for UDP and its first two bytes for TCP, for both of
      the rule's addresses. With all of them open an enabled rule matches the packets of
      its protocol, and a disabled one none. */
  lemma MatchesFields(r: Rule, p: Packet, a: u8, b: u8, c: u8, d: u8)
    requires p.sAddr == Value32([a, b, c, d])
    ensures var k := r.base; var source := if p.proto == UDP then a * 0x100_0000 + b * 0x1_0000 + c * 0x100 + d
                                           else a * 0x100 + b;
      && (k.srcPort != 0 ==>
            (Matches(r, p) <==> Matches(r.(base := k.(srcPort := 0)), p) && p.srcPort == k.srcPort))
      && (k.dstPort != 0 ==>
            (Matches(r, p) <==> Matches(r.(base := k.(dstPort := 0)), p) && p.dstPort == k.dstPort))
      && (k.sAddr != 0 ==> (Matches(r, p) <==> Matches(r.(base := k.(sAddr := 0)), p) && source == k.sAddr))
      && (k.dAddr != 0 ==> (Matches(r, p) <==> Matches(r.(base := k.(dAddr := 0)), p) && source == k.dAddr))
      && (k.srcPort == k.dstPort == 0 && k.sAddr == k.dAddr == 0 ==>
            (Matches(r, p) <==> r.off == 0 && p.proto == k.proto))
  {
    NtohBytes(a, b, c, d);
    hide Ntohl, Ntohs, Value32;
  }

  // ----- the verdict -----

  /** The `i`-th rule matches and none before it does. */
  ghost predicate Earliest(rules: seq<Rule>, p: Packet, i: nat) {
    i < |rules| && Matches(rules[i], p) && forall j | 0 <= j < i :: !Matches(rules[j], p)
  }

  ghost predicate NoneMatches(rules: seq<Rule>, p: Packet) { forall r | r in rules :: !Matches(r, p) }

  /** Whether a packet is to be dropped: only TCP and UDP are looked at; the earliest
      matching rule of the chain drops unless it says accept, and without one the chain's
      policy decides. */
  ghost predicate Drops(rules: seq<Rule>, policy: u8, p: Packet) {
    && (p.proto == 6 || p.proto == 17)
    && ((exists i: nat :: Earliest(rules, p, i) && rules[i].policy != POLICY_ACCEPT)
        || (NoneMatches(rules, p) && policy == NF_DROP))
  }

  lemma {:induction false} Decided(rules: seq<Rule>, p: Packet)
    ensures FirstMatch(rules, p).None? <==> NoneMatches(rules, p)
    ensures forall i: nat | Earliest(rules, p, i) :: FirstMatch(rules, p) == Some(rules[i])
    ensures FirstMatch(rules, p).Some? ==> exists i: nat :: Earliest(rules, p, i)
  {
    if rules == [] {
    } else if Matches(rules[0], p) {
      assert Earliest(rules, p, 0);
      assert rules[0] in rules;
    } else {
      var rest := rules[1..];
      Decided(rest, p);
      forall i: nat | Earliest(rules, p, i) ensures FirstMatch(rules, p) == Some(rules[i]) {
        assert Earliest(rest, p, i - 1);
      }
      if i: nat :| Earliest(rest, p, i) { assert Earliest(rules, p, i + 1); }
      assert forall r :: r in rules <==> r == rules[0] || r in rest;
    }
  }

  /** The verdict on any store: drop exactly then, and otherwise accept, unless a chain
      policy that is no verdict decides. */
  lemma VerdictIs(f: Firewall, p: Packet, inbound: bool)
    ensures var policy := if inbound then f.inPolicy else f.outPolicy; var rules := Chain(f, inbound);
      && (Verdict(f, p, inbound) == NF_DROP <==> Drops(rules, policy, p))
      && (Verdict(f, p, inbound) != NF_DROP && Verdict(f, p, inbound) != NF_ACCEPT ==>
            (p.proto == 6 || p.proto == 17) && NoneMatches(rules, p) && Verdict(f, p, inbound) == policy)
  {
    var rules := Chain(f, inbound);
    Decided(rules, p);
    hide Chain, FirstMatch, Matches;
    if i: nat :| Earliest(rules, p, i) {
      forall j: nat | Earliest(rules, p, j) ensures rules[j] == rules[i] {}
      assert rules[i] in rules;
    }
  }

  /** An update that leaves the deciding rule enabled makes its new policy the verdict of
      the packets it decides; one that leaves it disabled hands them on as if the rule had
      been deleted. */
  lemma UpdatedVerdict(f: Firewall, fr: Rule, p: Packet, inbound: bool, r: Rule)
    requires Sound(f) && (p.proto == TCP || p.proto == UDP)
    requires FirstMatch(Chain(f, inbound), p) == Some(r) && r.base == fr.base
    ensures var g := Step(f, UpdateRule(fr)).0; var policy := if fr.policy == POLICY_NONE then r.policy else fr.policy;
      && (fr.off == SW_NONE || fr.off == 0 ==>
            Verdict(g, p, inbound) == if policy == POLICY_ACCEPT then NF_ACCEPT else NF_DROP)
      && (fr.off != SW_NONE && fr.off != 0 ==>
            Verdict(g, p, inbound) == Verdict(Step(f, DeleteRule(fr)).0, p, inbound))
  {
    var c := Chain(f, inbound);
    FirstMatchFound(c, p, r);
    FilterIn(f.rules, OnChain(ChainOf(inbound)), r);
    var k :| 0 <= k < |f.rules| && f.rules[k] == r;
    assert Stored(f.rules, fr.base);
    UpdateCommutes(f.rules, fr, ChainOf(inbound));
    FilterTwice(f.rules, Not(HasBase(fr.base)), OnChain(ChainOf(inbound)));
    UpdatedFirst(c, fr, p, r) by { ChainUnique(f, inbound); }
  }

  lemma FirstMatchFound(rules: seq<Rule>, p: Packet, r: Rule)
    requires FirstMatch(rules, p) == Some(r)
    ensures r in rules && Matches(r, p)
  {
    if rules == [] {
    } else {
      FirstMatchIsFirst(rules, p, 0);
    }
  }

  ghost predicate Unique(rules: seq<Rule>) { forall i, j | 0 <= i < j < |rules| :: rules[i].base != rules[j].base }

  lemma ChainUnique(f: Firewall, inbound: bool)
    requires Sound(f)
    ensures Unique(Chain(f, inbound))
  {
    var c := Chain(f, inbound);
    forall i, j | 0 <= i < j < |c| ensures c[i].base != c[j].base {
      FilterDistinct(f.rules, OnChain(ChainOf(inbound)), i, j);
    }
  }

  /** First match on a chain whose deciding rule is updated. */
  lemma {:induction false} UpdatedFirst(c: seq<Rule>, fr: Rule, p: Packet, r: Rule)
    requires Unique(c) && FirstMatch(c, p) == Some(r) && r.base == fr.base
    ensures var after := FirstMatch(Map(c, UpdateWhere(fr)), p);
      if Updated(r, fr).off == SW_NO then after == Some(Updated(r, fr))
      else after == FirstMatch(Filter(c, Not(HasBase(fr.base))), p)
  {
    var rest := c[1..];
    assert Map(c, UpdateWhere(fr))[1..] == Map(rest, UpdateWhere(fr));
    if Matches(c[0], p) {
      forall q | q in rest ensures q.base != fr.base {
        var j :| 0 <= j < |rest| && rest[j] == q;
        assert c[0].base != c[j+1].base;
      }
      MapFixed(rest, fr);
      FilterTrivial(rest, Not(HasBase(fr.base)));
      assert [] + rest == rest;
    } else {
      FirstMatchFound(rest, p, r);
      var j :| 0 <= j < |rest| && rest[j] == r;
      assert c[0].base != c[j+1].base;
      assert Unique(rest) by {
        forall i, k | 0 <= i < k < |rest| ensures rest[i].base != rest[k].base { assert c[i+1].base != c[k+1].base; }
      }
      UpdatedFirst(rest, fr, p, r);
      var kept := Filter(rest, Not(HasBase(fr.base)));
      assert ([c[0]] + kept)[1..] == kept;
    }
  }
}
