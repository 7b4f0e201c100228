/** The TEST_SORT_ADD build of bf_module.c: chains kept by descending number of
    wildcard fields. */
module SortedChain {
  import opened Seqs
  import opened TrxData
  import RuleSpec

  function One(x: int): nat { if x == 0 then 1 else 0 }

  /** How many of ports and addresses are open; `sorted` compares these. */
  function Wildcards(b: Base): (w: nat)
    ensures w <= 4
  {
    One(b.srcPort) + One(b.dstPort) + One(b.sAddr) + One(b.dAddr)
  }

  /** The weight counts the open ones: none open weighs nothing, all open weigh four, and
      opening a set port or address adds one. */
  lemma WildcardsCount(b: Base)
    ensures b.srcPort == b.dstPort == 0 && b.sAddr == b.dAddr == 0 <==> Wildcards(b) == 4
    ensures b.srcPort != 0 && b.dstPort != 0 && b.sAddr != 0 && b.dAddr != 0 <==> Wildcards(b) == 0
    ensures b.srcPort != 0 ==> Wildcards(b.(srcPort := 0)) == Wildcards(b) + 1
    ensures b.dstPort != 0 ==> Wildcards(b.(dstPort := 0)) == Wildcards(b) + 1
    ensures b.sAddr != 0 ==> Wildcards(b.(sAddr := 0)) == Wildcards(b) + 1
    ensures b.dAddr != 0 ==> Wildcards(b.(dAddr := 0)) == Wildcards(b) + 1
  {
  }

  function HasWild(w: nat): Rule -> bool { (r: Rule) => Wildcards(r.base) == w }

  /** Reference: the rules with `w` wildcards in order, then those with one less, ... */
  function StableFrom(s: seq<Rule>, w: nat): seq<Rule> {
    Filter(s, HasWild(w)) + if w == 0 then [] else StableFrom(s, w - 1)
  }

  function Stable(s: seq<Rule>): seq<Rule> { StableFrom(s, 4) }

  function InsertSorted(chain: seq<Rule>, r: Rule): seq<Rule> {
    if chain == [] then [r]
    else if Wildcards(chain[0].base) < Wildcards(r.base) then [r] + chain
    else [chain[0]] + InsertSorted(chain[1..], r)
  }

  lemma {:induction false} InsertPasses(a: seq<Rule>, b: seq<Rule>, r: Rule)
    requires forall x | x in a :: Wildcards(x.base) >= Wildcards(r.base)
    ensures InsertSorted(a + b, r) == a + InsertSorted(b, r)
  {
    if a == [] {
      assert a + b == b;
    } else {
      InsertPasses(a[1..], b, r);
      assert (a + b)[1..] == a[1..] + b;
      assert a[0] in a;
      assert [a[0]] + (a[1..] + InsertSorted(b, r)) == a + InsertSorted(b, r);
    }
  }

  lemma {:induction false} StableBounded(s: seq<Rule>, w: nat, x: Rule)
    ensures x in StableFrom(s, w) <==> x in s && Wildcards(x.base) <= w
  {
    FilterIn(s, HasWild(w), x);
    if w == 0 {
    } else {
      StableBounded(s, w - 1, x);
    }
  }

  lemma {:induction false} StableSkips(s: seq<Rule>, r: Rule, w: nat)
    requires Wildcards(r.base) > w
    ensures StableFrom(s + [r], w) == StableFrom(s, w)
  {
    hide Wildcards, Filter;
    FilterSnoc(s, r, HasWild(w));
    if w == 0 {
    } else {
      StableSkips(s, r, w - 1);
    }
  }

  /** Everything in `b` has fewer wildcards than `r`. */
  lemma InsertInFront(b: seq<Rule>, r: Rule)
    requires forall x | x in b :: Wildcards(x.base) < Wildcards(r.base)
    ensures InsertSorted(b, r) == [r] + b
  {
    assert b != [] ==> b[0] in b;
  }

  function Rest(s: seq<Rule>, w: nat): seq<Rule> { if w == 0 then [] else StableFrom(s, w - 1) }

  /** Inserting before the first entry with fewer wildcards extends the stable order. */
  lemma {:induction false} InsertStable(s: seq<Rule>, r: Rule, w: nat)
    requires Wildcards(r.base) <= w
    ensures InsertSorted(StableFrom(s, w), r) == StableFrom(s + [r], w)
  {
    var a, b := Filter(s, HasWild(w)), Rest(s, w);
    forall x | x in a ensures Wildcards(x.base) >= Wildcards(r.base) { FilterIn(s, HasWild(w), x); }
    InsertPasses(a, b, r);
    FilterSnoc(s, r, HasWild(w));
    if Wildcards(r.base) < w {
      InsertStable(s, r, w - 1);
      assert Rest(s + [r], w) == InsertSorted(b, r);
    } else {
      assert Rest(s + [r], w) == b by { if w > 0 { StableSkips(s, r, w - 1); } }
      assert InsertSorted(b, r) == [r] + b by {
        forall x | x in b ensures Wildcards(x.base) < Wildcards(r.base) { StableBounded(s, w - 1, x); }
        InsertInFront(b, r);
      }
      Assoc(a, [r], b);
    }
    assert StableFrom(s + [r], w) == Filter(s + [r], HasWild(w)) + Rest(s + [r], w);
  }

  lemma StableTakes(s: seq<Rule>, r: Rule)
    ensures InsertSorted(Stable(s), r) == Stable(s + [r])
  {
    hide StableFrom, InsertSorted;
    InsertStable(s, r, 4);
  }

  lemma {:induction false} InsertAt(chain: seq<Rule>, r: Rule, i: nat)
    requires i <= |chain| && (i < |chain| ==> Wildcards(chain[i].base) < Wildcards(r.base))
    requires forall j | 0 <= j < i :: Wildcards(chain[j].base) >= Wildcards(r.base)
    ensures InsertSorted(chain, r) == chain[..i] + [r] + chain[i..]
  {
    hide Wildcards;
    var front, back := chain[..i], chain[i..];
    assert chain == front + back;
    forall x | x in front ensures Wildcards(x.base) >= Wildcards(r.base) {
      var j :| 0 <= j < i && chain[j] == x;
    }
    InsertPasses(front, back, r);
    assert InsertSorted(back, r) == [r] + back;
    Assoc(front, [r], back);
  }

  /** add_entry_sort, on a chain in stable order. */
  method AddEntrySort(chain: seq<Rule>, r: Rule, ghost arrived: seq<Rule>) returns (chain': seq<Rule>)
    requires chain == Stable(arrived)
    ensures chain' == Stable(arrived + [r])
  {
    hide Stable, InsertSorted, Wildcards;
    StableTakes(arrived, r);
    var i := 0;
    while i < |chain| && Wildcards(chain[i].base) - Wildcards(r.base) >= 0
      invariant i <= |chain|
      invariant forall j | 0 <= j < i :: Wildcards(chain[j].base) >= Wildcards(r.base)
    {
      i := i + 1;
    }
    InsertAt(chain, r, i);
    return chain[..i] + [r] + chain[i..];
  }

  /** The reference is a sort: descending, and the same rules. */
  lemma {:induction false} StableIsSorted(s: seq<Rule>, w: nat, i: nat, j: nat)
    requires i < j < |StableFrom(s, w)|
    ensures Wildcards(StableFrom(s, w)[i].base) >= Wildcards(StableFrom(s, w)[j].base)
  {
    hide Wildcards, Filter;
    var a := Filter(s, HasWild(w));
    if i >= |a| {
      StableIsSorted(s, w - 1, i - |a|, j - |a|);
    } else {
      FilterIn(s, HasWild(w), a[i]);
      StableBounded(s, w, StableFrom(s, w)[j]);
      assert StableFrom(s, w)[j] in StableFrom(s, w);
    }
  }

  predicate Open(b: Base) { b.srcPort == 0 && b.dstPort == 0 && b.sAddr == 0 && b.dAddr == 0 }

  predicate Shut(b: Base) { b.srcPort != 0 && b.dstPort != 0 && b.sAddr != 0 && b.dAddr != 0 }

  /** On a sorted chain the wholly open rules stand before all others, and the rules with
      nothing open behind all others. */
  lemma OpenFirst(s: seq<Rule>, i: nat, j: nat)
    requires i < |Stable(s)| && j < |Stable(s)|
    ensures Open(Stable(s)[i].base) && !Open(Stable(s)[j].base) ==> i < j
    ensures Shut(Stable(s)[j].base) && !Shut(Stable(s)[i].base) ==> i < j
  {
    WildcardsCount(Stable(s)[i].base);
    WildcardsCount(Stable(s)[j].base);
    hide Wildcards, StableFrom;
    if j < i {
      StableIsSorted(s, 4, j, i);
    }
  }

  lemma {:induction false} StableIsPermutation(s: seq<Rule>)
    ensures multiset(Stable(s)) == multiset(s)
  {
    if s == [] {
      StableOfNone(4);
    } else {
      hide Stable, InsertSorted;
      var n := |s| - 1;
      StableIsPermutation(s[..n]);
      StableTakes(s[..n], s[n]);
      InsertPermutes(Stable(s[..n]), s[n]);
      assert s == s[..n] + [s[n]];
    }
  }

  lemma {:induction false} StableOfNone(w: nat)
    ensures StableFrom([], w) == []
  {
    if w == 0 {
    } else {
      StableOfNone(w - 1);
    }
  }

  lemma {:induction false} InsertPermutes(chain: seq<Rule>, r: Rule)
    ensures multiset(InsertSorted(chain, r)) == multiset(chain) + multiset{r}
  {
    if chain == [] {
    } else {
      assert chain == [chain[0]] + chain[1..];
      InsertPermutes(chain[1..], r);
    }
  }

  lemma {:induction false} StableFilter(s: seq<Rule>, p: Rule -> bool, w: nat)
    ensures Filter(StableFrom(s, w), p) == StableFrom(Filter(s, p), w)
  {
    FilterAppend(Filter(s, HasWild(w)), if w == 0 then [] else StableFrom(s, w - 1), p);
    FilterTwice(s, HasWild(w), p);
    if w == 0 {
    } else {
      StableFilter(s, p, w - 1);
    }
  }

  lemma {:induction false} UpdateFilter(s: seq<Rule>, fr: Rule, w: nat)
    ensures Filter(Map(s, RuleSpec.UpdateWhere(fr)), HasWild(w)) == Map(Filter(s, HasWild(w)), RuleSpec.UpdateWhere(fr))
  {
    if s == [] {
    } else {
      UpdateFilter(s[1..], fr, w);
      MapAppend(if HasWild(w)(s[0]) then [s[0]] else [], Filter(s[1..], HasWild(w)), RuleSpec.UpdateWhere(fr));
      assert Map(s, RuleSpec.UpdateWhere(fr))[1..] == Map(s[1..], RuleSpec.UpdateWhere(fr));
    }
  }

  lemma {:induction false} StableUpdate(s: seq<Rule>, fr: Rule, w: nat)
    ensures Map(StableFrom(s, w), RuleSpec.UpdateWhere(fr)) == StableFrom(Map(s, RuleSpec.UpdateWhere(fr)), w)
  {
    MapAppend(Filter(s, HasWild(w)), if w == 0 then [] else StableFrom(s, w - 1), RuleSpec.UpdateWhere(fr));
    UpdateFilter(s, fr, w);
    if w == 0 {
    } else {
      StableUpdate(s, fr, w - 1);
    }
  }

  /** What one message does to a sorted chain list of a store holding `f`. */
  function ChainStep(chain: seq<Rule>, f: RuleSpec.Firewall, m: RuleSpec.Msg, inbound: bool): seq<Rule> {
    match m
    case AddRule(fr) =>
      if fr.base.chain == RuleSpec.ChainOf(inbound) && RuleSpec.Step(f, m).1 == RuleSpec.Ok
        then InsertSorted(chain, fr) else chain
    case UpdateRule(fr) => Map(chain, RuleSpec.UpdateWhere(fr))
    case DeleteRule(fr) => RemoveFirst(chain, RuleSpec.HasBase(fr.base))
    case DeleteAllRules => []
    case ChainPolicy(_) => chain
  }

  function ChainRun(chain: seq<Rule>, f: RuleSpec.Firewall, ms: seq<RuleSpec.Msg>, inbound: bool): seq<Rule>
    decreases ms
  {
    if ms == [] then chain
    else ChainRun(ChainStep(chain, f, ms[0], inbound), RuleSpec.Step(f, ms[0]).0, ms[1..], inbound)
  }

  lemma {:induction false} AtMostOne(s: seq<Rule>, b: Base)
    requires forall i, j | 0 <= i < j < |s| :: s[i].base != s[j].base
    ensures |Filter(s, RuleSpec.HasBase(b))| <= 1
  {
    if s == [] {
    } else {
      AtMostOne(s[1..], b);
      if s[0].base == b { FilterTrivial(s[1..], RuleSpec.HasBase(b)); }
    }
  }

  lemma {:induction false} NotStored(s: seq<Rule>, b: Base)
    requires !RuleSpec.Stored(s, b)
    ensures Filter(s, Not(RuleSpec.HasBase(b))) == s
    ensures forall fr: Rule | fr.base == b :: Map(s, RuleSpec.UpdateWhere(fr)) == s
  {
    FilterTrivial(s, Not(RuleSpec.HasBase(b)));
    forall fr: Rule | fr.base == b ensures Map(s, RuleSpec.UpdateWhere(fr)) == s { RuleSpec.MapFixed(s, fr); }
  }

  lemma DeleteKeepsStable(f: RuleSpec.Firewall, b: Base, inbound: bool)
    requires RuleSpec.Sound(f)
    ensures RemoveFirst(Stable(RuleSpec.Chain(f, inbound)), RuleSpec.HasBase(b)) ==
            Stable(Filter(Filter(f.rules, Not(RuleSpec.HasBase(b))), RuleSpec.OnChain(RuleSpec.ChainOf(inbound))))
  {
    var c := RuleSpec.OnChain(RuleSpec.ChainOf(inbound));
    var p := RuleSpec.HasBase(b);
    AtMostOne(f.rules, b);
    FilterTwice(f.rules, p, c);
    FilterLength(Filter(f.rules, p), c);
    StableFilter(Filter(f.rules, c), p, 4);
    StableLength(Filter(Filter(f.rules, c), p));
    RemoveFirstIsAll(Stable(Filter(f.rules, c)), p);
    StableFilter(Filter(f.rules, c), Not(p), 4);
    FilterTwice(f.rules, Not(p), c);
  }

  lemma StableLength(s: seq<Rule>)
    ensures |Stable(s)| == |s|
  {
    StableIsPermutation(s);
    assert |multiset(Stable(s))| == |multiset(s)|;
  }

  lemma ChainStepStable(f: RuleSpec.Firewall, m: RuleSpec.Msg, inbound: bool)
    requires RuleSpec.Sound(f)
    ensures ChainStep(Stable(RuleSpec.Chain(f, inbound)), f, m, inbound) ==
      Stable(RuleSpec.Chain(RuleSpec.Step(f, m).0, inbound))
  {
    hide StableFrom, InsertSorted, RuleSpec.Updated;
    var c := RuleSpec.ChainOf(inbound);
    match m
    case AddRule(fr) =>
      StableTakes(RuleSpec.Chain(f, inbound), fr);
      FilterSnoc(f.rules, fr, RuleSpec.OnChain(c));
    case UpdateRule(fr) =>
      StableUpdate(RuleSpec.Chain(f, inbound), fr, 4);
      RuleSpec.UpdateCommutes(f.rules, fr, c);
      if !RuleSpec.Stored(f.rules, fr.base) { NotStored(f.rules, fr.base); }
    case DeleteRule(fr) =>
      DeleteKeepsStable(f, fr.base, inbound);
      if !RuleSpec.Stored(f.rules, fr.base) { NotStored(f.rules, fr.base); }
    case DeleteAllRules => StableOfNone(4);
    case ChainPolicy(_) =>
  }

  lemma {:induction false} ChainRunStable(f: RuleSpec.Firewall, ms: seq<RuleSpec.Msg>, inbound: bool)
    requires RuleSpec.Sound(f)
    ensures ChainRun(Stable(RuleSpec.Chain(f, inbound)), f, ms, inbound) ==
      Stable(RuleSpec.Chain(RuleSpec.Run(f, ms), inbound))
    decreases ms
  {
    if ms == [] {
    } else {
      ChainStepStable(f, ms[0], inbound);
      RuleSpec.StepSound(f, ms[0]);
      ChainRunStable(RuleSpec.Step(f, ms[0]).0, ms[1..], inbound);
    }
  }

  /** After any run from module load, a sorted chain is the stable sort of the surviving
      rules of that chain in the order they were accepted. */
  lemma SortedAfterEveryRun(ms: seq<RuleSpec.Msg>, inbound: bool)
    ensures ChainRun([], RuleSpec.LOADED, ms, inbound) ==
      Stable(RuleSpec.Chain(RuleSpec.Run(RuleSpec.LOADED, ms), inbound))
  {
    StableOfNone(4);
    ChainRunStable(RuleSpec.LOADED, ms, inbound);
  }
}
