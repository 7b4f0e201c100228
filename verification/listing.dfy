/** Listing: list_rules of bf_module.c on the kernel's side, and the split of the
    received list into policies and rows in bfctl/cmds.cpp. */
module Listing {
  import opened Seqs
  import opened TrxData
  import opened HashSpec
  import opened RuleIndex
  import opened RuleStore
  import RuleSpec

  const ACK_EVERY_N_MSG: nat := 50

  datatype NlMsg = Data(fr: Rule, ack: bool) | Done(counter: u32)

  /** One step of the listing thread: a unicast, or wfc(). */
  datatype Act = Send(m: NlMsg) | Wait

  function Low32(x: nat): u32 { x % 0x1_0000_0000 }

  function Selects(pattern: Rule): Rule -> bool {
    (r: Rule) => pattern.base.chain == CHAIN_ALL || FrPattern(r, pattern)
  }

  function PolicyRecord(c: u8, verdict: u8): Rule {
    Rule(Base(c, 0, 0, 0, 0, 0), 0, ConvertPolicy(verdict), 0)
  }

  predicate AckDue(i: nat) { i % ACK_EVERY_N_MSG == 0 }

  /** What the `i`-th rule costs: its message, and a wait when it carries the flag. */
  function RuleAct(r: Rule, i: nat): seq<Act> {
    var m := Send(Data(r.(id := Low32(i)), AckDue(i)));
    if AckDue(i) then [m, Wait] else [m]
  }

  /** The messages for `rules`, numbered on from `i`. */
  function RuleActs(rules: seq<Rule>, i: nat): seq<Act> {
    if rules == [] then [] else RuleAct(rules[0], i + 1) + RuleActs(rules[1..], i + 1)
  }

  function Listed(f: RuleSpec.Firewall, pattern: Rule): seq<Rule> {
    Filter(RuleSpec.Chain(f, true), Selects(pattern)) + Filter(RuleSpec.Chain(f, false), Selects(pattern))
  }

  /** Two policy records, the matching INPUT then OUTPUT rules, the end mark. */
  function Script(f: RuleSpec.Firewall, pattern: Rule): seq<Act> {
    [Send(Data(PolicyRecord(CHAIN_INPUT, f.inPolicy), false)),
      Send(Data(PolicyRecord(CHAIN_OUTPUT, f.outPolicy), false))]
    + RuleActs(Listed(f, pattern), 0)
    + [Send(Done(Low32(|Listed(f, pattern)|)))]
  }

  lemma {:induction false} RuleActsAppend(a: seq<Rule>, b: seq<Rule>, i: nat)
    ensures RuleActs(a + b, i) == RuleActs(a, i) + RuleActs(b, i + |a|)
  {
    hide RuleAct;
    if a == [] {
      assert a + b == b;
    } else {
      RuleActsAppend(a[1..], b, i + 1);
      assert (a + b)[1..] == a[1..] + b;
      Assoc(RuleAct(a[0], i + 1), RuleActs(a[1..], i + 1), RuleActs(b, i + |a|));
    }
  }

  /** What a rule reads after a listing that numbered on from `i`. */
  function Numbered(rules: seq<Rule>, k: nat, pattern: Rule, i: nat): Rule
    requires k < |rules|
  {
    if Selects(pattern)(rules[k]) then rules[k].(id := Low32(i + |Filter(rules[..k], Selects(pattern))| + 1))
      else rules[k]
  }

  lemma NextRuleActs(rules: seq<Rule>, j: nat, pattern: Rule, i0: nat)
    requires j < |rules|
    ensures var (s, i) := (Selects(pattern), i0 + |Filter(rules[..j], Selects(pattern))|);
      && RuleActs(Filter(rules[..j+1], s), i0) ==
           RuleActs(Filter(rules[..j], s), i0) + (if s(rules[j]) then RuleAct(rules[j], i + 1) else [])
      && i0 + |Filter(rules[..j+1], s)| == if s(rules[j]) then i + 1 else i
  {
    hide FrPattern, RuleAct, Filter;
    var s, i := Selects(pattern), i0 + |Filter(rules[..j], Selects(pattern))|;
    assert rules[..j+1] == rules[..j] + [rules[j]];
    FilterSnoc(rules[..j], rules[j], s);
    RuleActsAppend(Filter(rules[..j], s), [rules[j]], i0);
    assert RuleActs([rules[j]], i) == RuleAct(rules[j], i + 1) + [];
  }

  /** The loop body: a selected rule gets the next number and goes out with it. */
  method SendRule(e: Entry, pattern: Rule, i: nat) returns (acts: seq<Act>, i': nat)
    modifies e`id
    ensures var r := old(e.Fr());
      if Selects(pattern)(r) then i' == i + 1 && acts == RuleAct(r, i') && e.Fr() == r.(id := Low32(i'))
      else i' == i && acts == [] && e.Fr() == r
    ensures i' > i ==>
      acts == [Send(Data(e.Fr(), i' % 50 == 0))] + if i' % 50 == 0 then [Wait] else []
  {
    acts, i' := [], i;
    if pattern.base.chain == CHAIN_ALL || FrPattern(e.Fr(), pattern) {
      i' := i + 1;
      var flag := i' % ACK_EVERY_N_MSG == 0;
      e.id := Low32(i');
      acts := [Send(Data(e.Fr(), flag))];
      if flag { acts := acts + [Wait]; }
    }
  }

  lemma NoActs(rules: seq<Rule>, p: Rule -> bool, i: nat)
    ensures Filter(rules[..0], p) == [] && RuleActs(Filter(rules[..0], p), i) == []
    ensures rules[..|rules|] == rules
  {
  }

  /** The loop over one chain: number, send, and wait after every fiftieth. */
  method SendChain(chain: seq<Entry>, pattern: Rule, i0: nat) returns (acts: seq<Act>, i: nat)
    requires forall j, k | 0 <= j < k < |chain| :: chain[j] != chain[k]
    modifies chain`id
    ensures acts == RuleActs(Filter(old(Rules(chain)), Selects(pattern)), i0)
    ensures i == i0 + |Filter(old(Rules(chain)), Selects(pattern))|
    ensures forall k | 0 <= k < |chain| :: chain[k].Fr() == Numbered(old(Rules(chain)), k, pattern, i0)
  {
    hide RuleActs, RuleAct, FrPattern, Filter;
    ghost var rules, s := Rules(chain), Selects(pattern);
    hide Rules;
    forall k | 0 <= k < |chain| ensures chain[k].Fr() == rules[k] { RulesAt(chain, k); }
    NoActs(rules, s, i0);
    acts, i := [], i0;
    var j := 0;
    while j < |chain|
      invariant j <= |chain|
      invariant acts == RuleActs(Filter(rules[..j], s), i0)
      invariant i == i0 + |Filter(rules[..j], s)|
      invariant forall k | 0 <= k < j :: chain[k].Fr() == Numbered(rules, k, pattern, i0)
      invariant forall k | j <= k < |chain| :: chain[k].Fr() == rules[k]
    {
      var more;
      NextRuleActs(rules, j, pattern, i0);
      more, i := SendRule(chain[j], pattern, i);
      acts := acts + more;
      j := j + 1;
    }
  }

  /** Each chain's entries are distinct full_list entries, none of them on the other. */
  lemma ChainsApart(full: seq<Entry>, ins: seq<Entry>, outs: seq<Entry>)
    requires UniqueKeys(full) && ins == Filter(full, InChain(CHAIN_INPUT))
      && outs == Filter(full, InChain(CHAIN_OUTPUT))
    ensures forall j | 0 <= j < |ins| :: ins[j] in full && ins[j] !in outs
    ensures forall j | 0 <= j < |outs| :: outs[j] in full && outs[j] !in ins
    ensures forall j, k | 0 <= j < k < |ins| :: ins[j] != ins[k]
    ensures forall j, k | 0 <= j < k < |outs| :: outs[j] != outs[k]
  {
    forall e ensures (e in ins ==> e in full && e !in outs) && (e in outs ==> e in full && e !in ins) {
      FilterIn(full, InChain(CHAIN_INPUT), e);
      FilterIn(full, InChain(CHAIN_OUTPUT), e);
    }
    forall j, k | 0 <= j < k < |ins| ensures ins[j] != ins[k] { FilterUnique(full, InChain(CHAIN_INPUT), j, k); }
    forall j, k | 0 <= j < k < |outs| ensures outs[j] != outs[k] { FilterUnique(full, InChain(CHAIN_OUTPUT), j, k); }
  }

  /** The script, with the two loops' shares told apart. */
  lemma ScriptParts(f: RuleSpec.Firewall, pattern: Rule)
    ensures var (a, b) := (Filter(RuleSpec.Chain(f, true), Selects(pattern)),
      Filter(RuleSpec.Chain(f, false), Selects(pattern)));
      Script(f, pattern) ==
        [Send(Data(PolicyRecord(CHAIN_INPUT, f.inPolicy), false)),
          Send(Data(PolicyRecord(CHAIN_OUTPUT, f.outPolicy), false))]
        + RuleActs(a, 0) + RuleActs(b, |a|) + [Send(Done(Low32(|a| + |b|)))]
  {
    hide RuleActs, Filter, PolicyRecord;
    var a, b := Filter(RuleSpec.Chain(f, true), Selects(pattern)), Filter(RuleSpec.Chain(f, false), Selects(pattern));
    RuleActsAppend(a, b, 0);
    Assoc([Send(Data(PolicyRecord(CHAIN_INPUT, f.inPolicy), false)),
      Send(Data(PolicyRecord(CHAIN_OUTPUT, f.outPolicy), false))],
          RuleActs(a, 0), RuleActs(b, |a|));
  }

  lemma ListReady(st: Store)
    requires st.Valid()
    ensures Rules(st.ins) == RuleSpec.Chain(st.Abs(), true) && Rules(st.outs) == RuleSpec.Chain(st.Abs(), false)
    ensures forall j | 0 <= j < |st.ins| :: st.ins[j] in st.full && st.ins[j] !in st.outs
    ensures forall j | 0 <= j < |st.outs| :: st.outs[j] in st.full && st.outs[j] !in st.ins
    ensures forall j, k | 0 <= j < k < |st.ins| :: st.ins[j] != st.ins[k]
    ensures forall j, k | 0 <= j < k < |st.outs| :: st.outs[j] != st.outs[k]
  {
    ChainRules(st.full, CHAIN_INPUT);
    ChainRules(st.full, CHAIN_OUTPUT);
    ChainsApart(st.full, st.ins, st.outs);
  }

  /** list_rules: both chains' policies, the matching rules of INPUT and then of OUTPUT
      numbered from 1, and the count. Only rule ids change, to the numbers sent. */
  method ListRules(st: Store, pattern: Rule) returns (acts: seq<Act>)
    requires st.Valid()
    modifies st.full`id
    ensures st.Valid()
    ensures acts == Script(old(st.Abs()), pattern)
    ensures forall k | 0 <= k < |st.ins| :: st.ins[k].Fr() == Numbered(old(Rules(st.ins)), k, pattern, 0)
    ensures forall k | 0 <= k < |st.outs| ::
      st.outs[k].Fr() == Numbered(old(Rules(st.outs)), k, pattern, |Filter(old(Rules(st.ins)), Selects(pattern))|)
  {
    hide Coherent, UniqueKeys, RuleActs, Script, Filter, RuleSpec.Chain, Numbered, PolicyRecord;
    ListReady(st);
    ScriptParts(st.Abs(), pattern);
    ghost var outRules := Rules(st.outs);
    acts := [Send(Data(PolicyRecord(CHAIN_INPUT, st.inPolicy), false)),
      Send(Data(PolicyRecord(CHAIN_OUTPUT, st.outPolicy), false))];
    var more, i;
    more, i := SendChain(st.ins, pattern, 0);
    acts := acts + more;
    assert Rules(st.outs) == outRules;
    more, i := SendChain(st.outs, pattern, i);
    acts := acts + more + [Send(Done(Low32(i)))];
  }

  // ----- what the script sends -----

  function Sends(acts: seq<Act>): seq<NlMsg> {
    if acts == [] then [] else (if acts[0].Send? then [acts[0].m] else []) + Sends(acts[1..])
  }

  function Payload(ms: seq<NlMsg>): seq<Rule> {
    if ms == [] then [] else (if ms[0].Data? then [ms[0].fr] else []) + Payload(ms[1..])
  }

  function Renumber(rules: seq<Rule>, i: nat): seq<Rule> {
    if rules == [] then [] else [rules[0].(id := Low32(i + 1))] + Renumber(rules[1..], i + 1)
  }

  function IsWait(): Act -> bool { (a: Act) => a.Wait? }

  function IsData(): Act -> bool { (a: Act) => a.Send? && a.m.Data? }

  function IsFlagged(): Act -> bool { (a: Act) => a.Send? && a.m.Data? && a.m.ack }

  lemma {:induction false} SendsAppend(a: seq<Act>, b: seq<Act>)
    ensures Sends(a + b) == Sends(a) + Sends(b)
  {
    if a == [] {
      assert a + b == b;
    } else {
      SendsAppend(a[1..], b);
      assert (a + b)[1..] == a[1..] + b;
      Assoc(if a[0].Send? then [a[0].m] else [], Sends(a[1..]), Sends(b));
    }
  }

  lemma SendsOne(a: Act)
    ensures Sends([a]) == if a.Send? then [a.m] else []
  {
    assert [a][1..] == [];
  }

  lemma PayloadOne(m: NlMsg)
    ensures Payload([m]) == if m.Data? then [m.fr] else []
  {
    assert [m][1..] == [];
  }

  lemma {:induction false} PayloadAppend(a: seq<NlMsg>, b: seq<NlMsg>)
    ensures Payload(a + b) == Payload(a) + Payload(b)
  {
    if a == [] {
      assert a + b == b;
    } else {
      PayloadAppend(a[1..], b);
      assert (a + b)[1..] == a[1..] + b;
      Assoc(if a[0].Data? then [a[0].fr] else [], Payload(a[1..]), Payload(b));
    }
  }

  lemma {:induction false} RenumberAt(rules: seq<Rule>, i: nat, k: nat)
    requires k < |rules|
    ensures |Renumber(rules, i)| == |rules| && Renumber(rules, i)[k] == rules[k].(id := Low32(i + k + 1))
  {
    if |rules| <= 1 {
    } else {
      RenumberAt(rules[1..], i + 1, if k == 0 then 0 else k - 1);
    }
  }

  lemma RuleActSends(r: Rule, i: nat)
    ensures Sends(RuleAct(r, i)) == [Data(r.(id := Low32(i)), AckDue(i))]
  {
    var m := Send(Data(r.(id := Low32(i)), AckDue(i)));
    SendsOne(m);
    SendsOne(Wait);
    if AckDue(i) {
      assert [m, Wait] == [m] + [Wait];
      SendsAppend([m], [Wait]);
    }
  }

  lemma {:induction false} RuleActsPayload(rules: seq<Rule>, i: nat)
    ensures Payload(Sends(RuleActs(rules, i))) == Renumber(rules, i)
  {
    hide RuleAct;
    if rules == [] {
    } else {
      RuleActsPayload(rules[1..], i + 1);
      RuleActSends(rules[0], i + 1);
      SendsAppend(RuleAct(rules[0], i + 1), RuleActs(rules[1..], i + 1));
      PayloadAppend(Sends(RuleAct(rules[0], i + 1)), Sends(RuleActs(rules[1..], i + 1)));
    }
  }

  /** What a listing carries: both chains' policies, then the rules numbered from 1. */
  function Carried(f: RuleSpec.Firewall, pattern: Rule): seq<Rule> {
    [PolicyRecord(CHAIN_INPUT, f.inPolicy), PolicyRecord(CHAIN_OUTPUT, f.outPolicy)] + Renumber(Listed(f, pattern), 0)
  }

  lemma RecordsPayload(p: Rule, q: Rule)
    ensures Payload(Sends([Send(Data(p, false)), Send(Data(q, false))])) == [p, q]
  {
    var a, b := Send(Data(p, false)), Send(Data(q, false));
    assert [a, b] == [a] + [b];
    SendsAppend([a], [b]);
    SendsOne(a);
    SendsOne(b);
    PayloadAppend([a.m], [b.m]);
    PayloadOne(a.m);
    PayloadOne(b.m);
  }

  lemma DonePayload(n: u32)
    ensures Payload(Sends([Send(Done(n))])) == []
  {
    SendsOne(Send(Done(n)));
    PayloadOne(Done(n));
  }

  lemma ScriptPayload(f: RuleSpec.Firewall, pattern: Rule)
    ensures Payload(Sends(Script(f, pattern))) == Carried(f, pattern)
  {
    hide PolicyRecord, Listed, RuleActs, Sends, Payload, Renumber;
    var p, q := PolicyRecord(CHAIN_INPUT, f.inPolicy), PolicyRecord(CHAIN_OUTPUT, f.outPolicy);
    var head := [Send(Data(p, false)), Send(Data(q, false))];
    var mid, tail := RuleActs(Listed(f, pattern), 0), [Send(Done(Low32(|Listed(f, pattern)|)))];
    RecordsPayload(p, q);
    DonePayload(Low32(|Listed(f, pattern)|));
    RuleActsPayload(Listed(f, pattern), 0);
    SendsAppend(head + mid, tail);
    SendsAppend(head, mid);
    PayloadAppend(Sends(head + mid), Sends(tail));
    PayloadAppend(Sends(head), Sends(mid));
    assert Script(f, pattern) == head + mid + tail;
  }

  /** A listing lists exactly the stored rules of the two chains the pattern selects; a
      pattern for all chains selects every rule, whatever its other fields say. */
  lemma ListedIs(f: RuleSpec.Firewall, pattern: Rule, r: Rule)
    ensures r in Listed(f, pattern) <==>
      && r in f.rules && (r.base.chain == CHAIN_INPUT || r.base.chain == CHAIN_OUTPUT)
      && (pattern.base.chain == CHAIN_ALL || FrPattern(r, pattern))
  {
    forall inbound: bool
      ensures r in Filter(RuleSpec.Chain(f, inbound), Selects(pattern)) <==>
        r in f.rules && r.base.chain == RuleSpec.ChainOf(inbound) && Selects(pattern)(r)
    {
      FilterIn(f.rules, RuleSpec.OnChain(RuleSpec.ChainOf(inbound)), r);
      FilterIn(RuleSpec.Chain(f, inbound), Selects(pattern), r);
    }
    hide FrPattern, RuleSpec.Chain, Filter;
    var a, b := Filter(RuleSpec.Chain(f, true), Selects(pattern)), Filter(RuleSpec.Chain(f, false), Selects(pattern));
    assert r in a + b <==> r in a || r in b;
  }

  // ----- pacing -----

  function Count(acts: seq<Act>, p: Act -> bool): nat { |Filter(acts, p)| }

  lemma CountAppend(a: seq<Act>, b: seq<Act>, p: Act -> bool)
    ensures Count(a + b, p) == Count(a, p) + Count(b, p)
  {
    FilterAppend(a, b, p);
  }

  lemma CountOne(a: Act, p: Act -> bool)
    ensures Count([a], p) == if p(a) then 1 else 0
  {
    assert Filter([a], p) == if p(a) then [a] else [];
  }

  lemma CountTwo(a: Act, b: Act, p: Act -> bool)
    ensures Count([a, b], p) == (if p(a) then 1 else 0) + if p(b) then 1 else 0
  {
    assert [a, b] == [a] + [b];
    CountAppend([a], [b], p);
    CountOne(a, p);
    CountOne(b, p);
  }

  /** One flag per number divisible by fifty, every flag waited for but one just sent. */
  predicate Pace(k: nat, w: nat, f: nat, i: nat, waiting: bool) {
    && f == (i + k) / ACK_EVERY_N_MSG - i / ACK_EVERY_N_MSG
    && if waiting then w + 1 == f && AckDue(i + k) else w == f
  }

  predicate WaitsNext(acts: seq<Act>, q: nat) { q < |acts| && acts[q].Wait? }

  /** How far the first `q` steps of a rule loop numbering on from `i` have come. */
  predicate Paced(acts: seq<Act>, i: nat, q: nat)
    requires q <= |acts|
  {
    Pace(Count(acts[..q], IsData()), Count(acts[..q], IsWait()), Count(acts[..q], IsFlagged()), i, WaitsNext(acts, q))
  }

  lemma PaceOn(k: nat, w: nat, f: nat, i: nat, waiting: bool)
    requires Pace(k, w, f, i + 1, waiting)
    ensures var d := if AckDue(i + 1) then 1 else 0; Pace(k + 1, w + d, f + d, i, waiting)
  {
    NextFifty(i);
  }

  lemma NextFifty(i: nat)
    ensures (i + 1) / ACK_EVERY_N_MSG == i / ACK_EVERY_N_MSG + if AckDue(i + 1) then 1 else 0
  {
  }

  lemma RuleActCounts(r: Rule, i: nat)
    ensures Count(RuleAct(r, i), IsData()) == 1
    ensures Count(RuleAct(r, i), IsWait()) == Count(RuleAct(r, i), IsFlagged()) == if AckDue(i) then 1 else 0
    ensures |RuleAct(r, i)| == if AckDue(i) then 2 else 1
    ensures Count(RuleAct(r, i)[..1], IsData()) == 1 && Count(RuleAct(r, i)[..1], IsWait()) == 0
    ensures Count(RuleAct(r, i)[..1], IsFlagged()) == if AckDue(i) then 1 else 0
  {
    hide Count;
    var m := Send(Data(r.(id := Low32(i)), AckDue(i)));
    assert RuleAct(r, i)[..1] == [m];
    CountOne(m, IsData());
    CountOne(m, IsWait());
    CountOne(m, IsFlagged());
    CountTwo(m, Wait, IsData());
    CountTwo(m, Wait, IsWait());
    CountTwo(m, Wait, IsFlagged());
  }

  lemma PacedAfter(r: Rule, rest: seq<Act>, i: nat, q: nat)
    requires var n := |RuleAct(r, i + 1)|; n <= q <= n + |rest| && Paced(rest, i + 1, q - n)
    ensures Paced(RuleAct(r, i + 1) + rest, i, q)
  {
    hide Count, Pace, AckDue, RuleAct;
    var first := RuleAct(r, i + 1);
    var n := |first|;
    var done := rest[..q-n];
    assert (first + rest)[..q] == first + done;
    assert WaitsNext(first + rest, q) == WaitsNext(rest, q - n);
    RuleActCounts(r, i + 1);
    CountAppend(first, done, IsData());
    CountAppend(first, done, IsWait());
    CountAppend(first, done, IsFlagged());
    PaceOn(Count(done, IsData()), Count(done, IsWait()), Count(done, IsFlagged()), i, WaitsNext(rest, q - n));
  }

  lemma {:induction false} RuleActsPaced(rules: seq<Rule>, i: nat, q: nat)
    requires q <= |RuleActs(rules, i)|
    ensures Paced(RuleActs(rules, i), i, q)
  {
    if q > 0 && q >= |RuleAct(rules[0], i + 1)| {
      RuleActsPaced(rules[1..], i + 1, q - |RuleAct(rules[0], i + 1)|);
      hide RuleAct, Paced;
      PacedAfter(rules[0], RuleActs(rules[1..], i + 1), i, q);
    } else if q > 0 {
      RuleActCounts(rules[0], i + 1);
      assert RuleActs(rules, i)[..1] == RuleAct(rules[0], i + 1)[..1];
      NextFifty(i);
    } else {
      NothingPaced(rules, i);
    }
  }

  lemma NothingPaced(rules: seq<Rule>, i: nat)
    ensures Paced(RuleActs(rules, i), i, 0)
  {
    assert RuleActs(rules, i)[..0] == [];
    if rules != [] { assert RuleAct(rules[0], i + 1)[0].Send?; }
  }

  lemma {:induction false} RuleActsData(rules: seq<Rule>, i: nat)
    ensures Count(RuleActs(rules, i), IsData()) == |rules|
  {
    hide RuleAct;
    if rules == [] {
    } else {
      RuleActsData(rules[1..], i + 1);
      RuleActCounts(rules[0], i + 1);
      CountAppend(RuleAct(rules[0], i + 1), RuleActs(rules[1..], i + 1), IsData());
    }
  }

  lemma CountPrefix(a: seq<Act>, q: nat, p: Act -> bool)
    requires q <= |a|
    ensures Count(a[..q], p) <= Count(a, p)
  {
    assert a[..q] + a[q..] == a;
    CountAppend(a[..q], a[q..], p);
  }

  /** Rule messages among the first `q` steps: all data messages but the two policy records. */
  function RulesSent(script: seq<Act>, q: nat): nat
    requires q <= |script|
  {
    var d := Count(script[..q], IsData());
    if d < 2 then 0 else d - 2
  }

  function Waited(script: seq<Act>, q: nat): nat
    requires q <= |script|
  {
    Count(script[..q], IsWait())
  }

  function Flagged(script: seq<Act>, q: nat): nat
    requires q <= |script|
  {
    Count(script[..q], IsFlagged())
  }

  lemma HeadCounts(a: Act, b: Act)
    requires IsData()(a) && IsData()(b) && !a.m.ack && !b.m.ack
    ensures Count([a, b], IsData()) == 2 && Count([a, b], IsWait()) == 0 && Count([a, b], IsFlagged()) == 0
    ensures Count([a], IsData()) == 1 && Count([a], IsWait()) == 0 && Count([a], IsFlagged()) == 0
  {
    CountTwo(a, b, IsData());
    CountTwo(a, b, IsWait());
    CountTwo(a, b, IsFlagged());
    CountOne(a, IsData());
    CountOne(a, IsWait());
    CountOne(a, IsFlagged());
  }

  lemma HeadThen(head: seq<Act>, done: seq<Act>)
    requires |head| == 2 && (forall j | 0 <= j < 2 :: IsData()(head[j]) && !head[j].m.ack)
    ensures Count(head + done, IsData()) == 2 + Count(done, IsData())
    ensures Count(head + done, IsWait()) == Count(done, IsWait())
    ensures Count(head + done, IsFlagged()) == Count(done, IsFlagged())
  {
    hide Count;
    HeadCounts(head[0], head[1]);
    assert head == [head[0], head[1]];
    CountAppend(head, done, IsData());
    CountAppend(head, done, IsWait());
    CountAppend(head, done, IsFlagged());
  }

  lemma ThenDone(a: seq<Act>, n: u32)
    ensures var d := [Send(Done(n))];
      && Count(a + d, IsData()) == Count(a, IsData()) && Count(a + d, IsWait()) == Count(a, IsWait())
      && Count(a + d, IsFlagged()) == Count(a, IsFlagged())
  {
    hide Count;
    var d := Send(Done(n));
    CountAppend(a, [d], IsData());
    CountAppend(a, [d], IsWait());
    CountAppend(a, [d], IsFlagged());
    CountOne(d, IsData());
    CountOne(d, IsWait());
    CountOne(d, IsFlagged());
  }

  /** The pace of a whole listing: after any number of steps one flag has gone out for
      every fifty rules, and all flags have been waited for but the one a wait is next for. */
  lemma ScriptPaced(f: RuleSpec.Firewall, pattern: Rule, q: nat)
    requires q <= |Script(f, pattern)|
    ensures var s := Script(f, pattern);
      && Pace(RulesSent(s, q), Waited(s, q), Flagged(s, q), 0, WaitsNext(s, q))
      && RulesSent(s, q) <= |Listed(f, pattern)|
  {
    hide Pace, RulesSent, Waited, Flagged, WaitsNext, RuleActs, Listed, Filter;
    var s, rules := Script(f, pattern), Listed(f, pattern);
    var head, n := s[..2], Low32(|rules|);
    assert s == head + RuleActs(rules, 0) + [Send(Done(n))];
    if q < 2 {
      PacedBefore(s, rules, q);
    } else if q <= 2 + |RuleActs(rules, 0)| {
      PacedMiddle(head, rules, n, q - 2);
    } else {
      PacedEnd(head, rules, n);
    }
  }

  lemma PacedBefore(s: seq<Act>, rules: seq<Rule>, q: nat)
    requires q < 2 <= |s| && (forall j | 0 <= j < 2 :: IsData()(s[j]) && !s[j].m.ack)
    ensures Pace(RulesSent(s, q), Waited(s, q), Flagged(s, q), 0, WaitsNext(s, q)) && RulesSent(s, q) == 0
  {
    PacedStart(s[..2], q);
    assert s[..q] == s[..2][..q];
  }

  lemma PacedMiddle(head: seq<Act>, rules: seq<Rule>, n: u32, p: nat)
    requires |head| == 2 && (forall j | 0 <= j < 2 :: IsData()(head[j]) && !head[j].m.ack) && p <= |RuleActs(rules, 0)|
    ensures var s := head + RuleActs(rules, 0) + [Send(Done(n))];
      && Pace(RulesSent(s, p + 2), Waited(s, p + 2), Flagged(s, p + 2), 0, WaitsNext(s, p + 2))
      && RulesSent(s, p + 2) <= |rules|
  {
    var mid := RuleActs(rules, 0);
    var s := head + mid + [Send(Done(n))];
    RuleActsPaced(rules, 0, p);
    RuleActsData(rules, 0);
    CountPrefix(mid, p, IsData());
    HeadThen(head, mid[..p]);
    assert s[..p+2] == head + mid[..p];
    assert WaitsNext(s, p + 2) == WaitsNext(mid, p);
  }

  lemma PacedEnd(head: seq<Act>, rules: seq<Rule>, n: u32)
    requires |head| == 2 && (forall j | 0 <= j < 2 :: IsData()(head[j]) && !head[j].m.ack)
    ensures var s := head + RuleActs(rules, 0) + [Send(Done(n))];
      && Pace(RulesSent(s, |s|), Waited(s, |s|), Flagged(s, |s|), 0, WaitsNext(s, |s|))
      && RulesSent(s, |s|) <= |rules|
  {
    var mid := RuleActs(rules, 0);
    var s := head + mid + [Send(Done(n))];
    PacedMiddle(head, rules, n, |mid|);
    ThenDone(head + mid, n);
    assert s[..|mid|+2] == head + mid && s[..|s|] == s;
  }

  lemma PacedStart(head: seq<Act>, q: nat)
    requires |head| == 2 && q < 2 && (forall j | 0 <= j < 2 :: IsData()(head[j]) && !head[j].m.ack)
    ensures Count(head[..q], IsData()) < 2 && Count(head[..q], IsWait()) == Count(head[..q], IsFlagged()) == 0
    ensures Pace(0, 0, 0, 0, false)
  {
    HeadCounts(head[0], head[1]);
    assert head[..q] == if q == 0 then [] else [head[0]];
  }

  // ----- the client's split -----

  /** bfctl's listRules: the policies shown, and the rows under each chain header. */
  datatype Shown = Shown(inPolicy: u8, outPolicy: u8, ins: seq<Rule>, outs: seq<Rule>)

  /** The last policy record of a chain, or POLICY_NONE. */
  function PolicyIn(list: seq<Rule>, c: u8): u8 {
    if list == [] then POLICY_NONE
    else
      var last := list[|list|-1];
      if PolicyRule(last.base) && last.base.chain == c then last.policy else PolicyIn(list[..|list|-1], c)
  }

  function Row(c: u8): Rule -> bool { (r: Rule) => !PolicyRule(r.base) && r.base.chain == c }

  function RowsFor(list: seq<Rule>, asked: u8, c: u8): seq<Rule> {
    if asked == c || asked == CHAIN_ALL then Filter(list, Row(c)) else []
  }

  function Split(list: seq<Rule>, asked: u8): Shown {
    Shown(PolicyIn(list, CHAIN_INPUT), PolicyIn(list, CHAIN_OUTPUT), RowsFor(list, asked, CHAIN_INPUT),
      RowsFor(list, asked, CHAIN_OUTPUT))
  }

  method ShowPolicies(list: seq<Rule>) returns (policies: seq<u8>)
    ensures policies == [PolicyIn(list, CHAIN_INPUT), PolicyIn(list, CHAIN_OUTPUT)]
  {
    policies := [POLICY_NONE, POLICY_NONE];
    var j := 0;
    while j < |list|
      invariant j <= |list| && policies == [PolicyIn(list[..j], CHAIN_INPUT), PolicyIn(list[..j], CHAIN_OUTPUT)]
    {
      assert list[..j+1][..j] == list[..j];
      if PolicyRule(list[j].base) {
        if list[j].base.chain == CHAIN_INPUT {
          policies := policies[0 := list[j].policy];
        } else if list[j].base.chain == CHAIN_OUTPUT {
          policies := policies[1 := list[j].policy];
        }
      }
      j := j + 1;
    }
    assert list[..j] == list;
  }

  method ShowRows(list: seq<Rule>, asked: u8, c: u8) returns (rows: seq<Rule>)
    ensures rows == RowsFor(list, asked, c)
  {
    rows := [];
    var j := 0;
    while j < |list|
      invariant j <= |list| && rows == RowsFor(list[..j], asked, c)
    {
      assert list[..j+1] == list[..j] + [list[j]];
      FilterSnoc(list[..j], list[j], Row(c));
      if !PolicyRule(list[j].base) && list[j].base.chain == c && (asked == c || asked == CHAIN_ALL) {
        rows := rows + [list[j]];
      }
      j := j + 1;
    }
    assert list[..j] == list;
  }

  method ListRulesCmd(list: seq<Rule>, asked: u8) returns (shown: Shown)
    ensures shown == Split(list, asked)
  {
    var policies := ShowPolicies(list);
    var ins := ShowRows(list, asked, CHAIN_INPUT);
    var outs := ShowRows(list, asked, CHAIN_OUTPUT);
    shown := Shown(policies[0], policies[1], ins, outs);
  }

  lemma {:induction false} RenumberAppend(a: seq<Rule>, b: seq<Rule>, i: nat)
    ensures Renumber(a + b, i) == Renumber(a, i) + Renumber(b, i + |a|)
  {
    if a == [] {
      assert a + b == b;
    } else {
      RenumberAppend(a[1..], b, i + 1);
      assert (a + b)[1..] == a[1..] + b;
      Assoc([a[0].(id := Low32(i + 1))], Renumber(a[1..], i + 1), Renumber(b, i + |a|));
    }
  }

  /** The rows of a renumbered list are its rows, renumbered, when it has a single chain:
      all of it on that chain's page, short of rules that look like policy records. */
  lemma {:induction false} RowsOfChain(rules: seq<Rule>, i: nat, own: u8, c: u8)
    requires forall r | r in rules :: r.base.chain == own
    ensures c != own ==> Filter(Renumber(rules, i), Row(c)) == []
    ensures c == own ==> (Filter(Renumber(rules, i), Row(c)) == Renumber(rules, i)
      <==> forall r | r in rules :: !PolicyRule(r.base))
  {
    hide PolicyRule;
    if rules == [] {
    } else {
      var tail := Renumber(rules[1..], i + 1);
      RowsOfChain(rules[1..], i + 1, own, c);
      FilterLength(tail, Row(c));
      assert Renumber(rules, i)[1..] == tail;
      assert rules == [rules[0]] + rules[1..];
      if c == own && !PolicyRule(rules[0].base) {
        assert Filter(Renumber(rules, i), Row(c))[1..] == Filter(tail, Row(c));
      }
    }
  }

  lemma {:induction false} NoPolicyIn(list: seq<Rule>, rest: seq<Rule>, i: nat, c: u8)
    requires forall r | r in rest :: !PolicyRule(r.base)
    ensures PolicyIn(list + Renumber(rest, i), c) == PolicyIn(list, c)
  {
    if rest == [] {
      assert list + Renumber(rest, i) == list;
    } else {
      var n := |rest| - 1;
      var front := rest[..n];
      NoPolicyIn(list, front, i, c);
      assert rest == front + [rest[n]];
      RenumberAppend(front, [rest[n]], i);
      assert Renumber([rest[n]], i + n) == [rest[n].(id := Low32(i + n + 1))];
      var whole := list + Renumber(rest, i);
      assert whole[..|whole|-1] == list + Renumber(front, i);
      assert whole[|whole|-1] == rest[n].(id := Low32(i + n + 1)) && rest[n] in rest;
    }
  }

  lemma RecordsSplit(f: RuleSpec.Firewall, c: u8)
    ensures var h := [PolicyRecord(CHAIN_INPUT, f.inPolicy), PolicyRecord(CHAIN_OUTPUT, f.outPolicy)];
      && PolicyIn(h, CHAIN_INPUT) == ConvertPolicy(f.inPolicy)
        && PolicyIn(h, CHAIN_OUTPUT) == ConvertPolicy(f.outPolicy)
      && Filter(h, Row(c)) == []
  {
    var p, q := PolicyRecord(CHAIN_INPUT, f.inPolicy), PolicyRecord(CHAIN_OUTPUT, f.outPolicy);
    assert [p, q][..1] == [p] && [p, q] == [p] + [q];
    FilterSnoc([p], q, Row(c));
    FilterSnoc([], p, Row(c));
  }

  /** The selected part of a chain. */
  function Part(f: RuleSpec.Firewall, inbound: bool, pattern: Rule): seq<Rule> {
    Filter(RuleSpec.Chain(f, inbound), Selects(pattern))
  }

  lemma PartOfChain(f: RuleSpec.Firewall, inbound: bool, pattern: Rule)
    ensures forall r | r in Part(f, inbound, pattern) :: r in f.rules && r.base.chain == RuleSpec.ChainOf(inbound)
  {
    forall r | r in Part(f, inbound, pattern) ensures r in f.rules && r.base.chain == RuleSpec.ChainOf(inbound) {
      FilterIn(RuleSpec.Chain(f, inbound), Selects(pattern), r);
      FilterIn(f.rules, RuleSpec.OnChain(RuleSpec.ChainOf(inbound)), r);
    }
  }

  lemma CarriedRows(f: RuleSpec.Firewall, pattern: Rule, c: u8)
    ensures var (a, b) := (Part(f, true, pattern), Part(f, false, pattern));
      Filter(Carried(f, pattern), Row(c)) == Filter(Renumber(a, 0), Row(c)) + Filter(Renumber(b, |a|), Row(c))
  {
    var a, b := Part(f, true, pattern), Part(f, false, pattern);
    var h := [PolicyRecord(CHAIN_INPUT, f.inPolicy), PolicyRecord(CHAIN_OUTPUT, f.outPolicy)];
    RecordsSplit(f, c);
    FilterAppend(h, Renumber(a + b, 0), Row(c));
    RenumberAppend(a, b, 0);
    FilterAppend(Renumber(a, 0), Renumber(b, |a|), Row(c));
  }

  /** Asked for everything, bfctl shows exactly the stored rules of each chain precisely
      when no stored rule looks like a policy record. */
  lemma RowsRecoveredIff(f: RuleSpec.Firewall, pattern: Rule)
    requires pattern.base.chain == CHAIN_ALL
    ensures var s := Split(Carried(f, pattern), CHAIN_ALL);
      var (a, b) := (Part(f, true, pattern), Part(f, false, pattern));
      s.ins == Renumber(a, 0) && s.outs == Renumber(b, |a|) <==> forall r: Rule | r in a + b :: !PolicyRule(r.base)
  {
    var a, b := Part(f, true, pattern), Part(f, false, pattern);
    PartOfChain(f, true, pattern);
    PartOfChain(f, false, pattern);
    hide Filter, Renumber, Part, Carried;
    RowsOfChain(a, 0, CHAIN_INPUT, CHAIN_INPUT);
    RowsOfChain(a, 0, CHAIN_INPUT, CHAIN_OUTPUT);
    RowsOfChain(b, |a|, CHAIN_OUTPUT, CHAIN_INPUT);
    RowsOfChain(b, |a|, CHAIN_OUTPUT, CHAIN_OUTPUT);
    CarriedRows(f, pattern, CHAIN_INPUT);
    CarriedRows(f, pattern, CHAIN_OUTPUT);
    assert forall r: Rule :: r in a + b <==> r in a || r in b;
    assert (forall r: Rule | r in a + b :: !PolicyRule(r.base))
      <==> (forall r | r in a :: !PolicyRule(r.base)) && (forall r | r in b :: !PolicyRule(r.base));
  }

  /** After any run of messages, what bfctl shows of a received listing are the policies
      the hook applies and, on each chain asked for, exactly the selected stored rules. */
  lemma SplitRecovers(ms: seq<RuleSpec.Msg>, pattern: Rule)
    ensures var (f, asked) := (RuleSpec.Run(RuleSpec.LOADED, ms), pattern.base.chain);
      var s := Split(Carried(f, pattern), asked);
      && ApplyPolicy(s.inPolicy) == f.inPolicy && s.inPolicy != POLICY_NONE
      && ApplyPolicy(s.outPolicy) == f.outPolicy && s.outPolicy != POLICY_NONE
      && s.ins == (if asked == CHAIN_INPUT || asked == CHAIN_ALL then Renumber(Part(f, true, pattern), 0) else [])
      && s.outs == (if asked == CHAIN_OUTPUT || asked == CHAIN_ALL
                    then Renumber(Part(f, false, pattern), |Part(f, true, pattern)|) else [])
  {
    var f, asked := RuleSpec.Run(RuleSpec.LOADED, ms), pattern.base.chain;
    RuleSpec.RunSound(RuleSpec.LOADED, ms);
    SoundSplit(f, pattern);
  }

  lemma SoundSplit(f: RuleSpec.Firewall, pattern: Rule)
    requires RuleSpec.Sound(f)
    ensures var asked := pattern.base.chain;
      var s := Split(Carried(f, pattern), asked);
      && s.inPolicy == ConvertPolicy(f.inPolicy) && s.outPolicy == ConvertPolicy(f.outPolicy)
      && s.ins == (if asked == CHAIN_INPUT || asked == CHAIN_ALL then Renumber(Part(f, true, pattern), 0) else [])
      && s.outs == (if asked == CHAIN_OUTPUT || asked == CHAIN_ALL
                    then Renumber(Part(f, false, pattern), |Part(f, true, pattern)|) else [])
  {
    var a, b := Part(f, true, pattern), Part(f, false, pattern);
    PartOfChain(f, true, pattern);
    PartOfChain(f, false, pattern);
    RecordsSplit(f, CHAIN_INPUT);
    var h := [PolicyRecord(CHAIN_INPUT, f.inPolicy), PolicyRecord(CHAIN_OUTPUT, f.outPolicy)];
    assert Carried(f, pattern) == h + Renumber(a + b, 0);
    hide Filter, Renumber, Part, Carried, PolicyIn, RuleSpec.Chain;
    NoPolicyIn(h, a + b, 0, CHAIN_INPUT);
    NoPolicyIn(h, a + b, 0, CHAIN_OUTPUT);
    RowsOfChain(a, 0, CHAIN_INPUT, CHAIN_INPUT);
    RowsOfChain(a, 0, CHAIN_INPUT, CHAIN_OUTPUT);
    RowsOfChain(b, |a|, CHAIN_OUTPUT, CHAIN_INPUT);
    RowsOfChain(b, |a|, CHAIN_OUTPUT, CHAIN_OUTPUT);
    CarriedRows(f, pattern, CHAIN_INPUT);
    CarriedRows(f, pattern, CHAIN_OUTPUT);
  }
}
