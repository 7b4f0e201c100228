/** What runs of a listing can come to: every run can be brought to its end, the bounds are
    met, the client's timer can cut a listing anywhere, and what a series of listings does. */
module ListingRuns {
  import opened Seqs
  import opened TrxData
  import opened Listing
  import opened Collector
  import opened ListingProtocol
  import RuleSpec

  function End(run: seq<Net>): Net
    requires run != []
  {
    run[|run|-1]
  }

  /** The kernel `q` steps in, with nobody else having moved: its first waits take the
      completions left over, the rest time out. */
  function Alone(s: seq<Act>, left: nat, q: nat): Net
    requires q <= |s|
  {
    var w := Waited(s, q);
    Net(q, Sends(s[..q]), 0, if w <= left then left - w else 0, 0, if w <= left then 0 else w - left,
        Client(Some([]), [], [], false), false)
  }

  lemma AloneStep(s: seq<Act>, left: nat, q: nat)
    requires q < |s|
    ensures Next(Alone(s, left, q), Alone(s, left, q + 1), s)
  {
    Advance(s, q);
    assert s[..q+1] == s[..q] + [s[q]];
    SendsAppend(s[..q], [s[q]]);
    SendsOne(s[q]);
  }

  lemma {:induction false} AloneRun(s: seq<Act>, left: nat, q: nat) returns (run: seq<Net>)
    requires q <= |s|
    ensures run != [] && IsRun(run, s, left) && End(run) == Alone(s, left, q)
  {
    if q == 0 {
      assert s[..0] == [];
      run := [Alone(s, left, 0)];
    } else {
      AloneStep(s, left, q - 1);
      run := AloneRun(s, left, q - 1);
      run := ExtendRun(run, s, left, Alone(s, left, q));
    }
  }

  lemma ExtendRun(run: seq<Net>, s: seq<Act>, left: nat, n: Net) returns (longer: seq<Net>)
    requires IsRun(run, s, left) && Next(End(run), n, s)
    ensures longer == run + [n] && longer != [] && IsRun(longer, s, left) && End(longer) == n
  {
    hide Next, Init;
    longer := run + [n];
    forall i | 0 <= i < |longer| - 1 ensures Next(longer[i], longer[i+1], s) {
      if i < |run| - 1 { assert Next(run[i], run[i+1], s); }
    }
  }

  // ----- every run can be finished -----

  /** A step open to somebody in `n` without any timer. */
  lemma Move(n: Net, s: seq<Act>) returns (n': Net)
    requires n.pc <= |s| && !Stuck(n, s)
    ensures Next(n, n', s) && n'.pc <= |s| && n'.late == n.late && n'.gaveUp == n.gaveUp
    ensures n.client.delivered <= n'.client.delivered
  {
    if n.pc < |s| && s[n.pc].Send? {
      n' := n.(pc := n.pc + 1, toClient := n.toClient + [s[n.pc].m]);
      assert SendStep(n, n', s);
    } else if WaitsNext(s, n.pc) && n.comp > 0 {
      n' := n.(pc := n.pc + 1, comp := n.comp - 1);
      assert WaitStep(n, n', s);
    } else if n.toKernel > 0 {
      n' := n.(toKernel := n.toKernel - 1, comp := n.comp + 1, received := n.received + 1);
      assert OkStep(n, n');
    } else {
      var m := n.toClient[0];
      n' := n.(toClient := n.toClient[1..],
               toKernel := n.toKernel + (if m.Data? && m.ack then 1 else 0),
               client := Received(n.client, m));
      assert ClientStep(n, n');
    }
  }

  /** However far a listing has come, it can still end with no timer firing any more. */
  lemma {:induction false} CanFinish(run: seq<Net>, s: seq<Act>, left: nat) returns (whole: seq<Net>)
    requires Closed(s) && run != [] && IsRun(run, s, left) && End(run).pc <= |s|
    ensures IsRun(whole, s, left) && run <= whole && Stuck(End(whole), s)
    ensures End(whole).late == End(run).late && End(whole).gaveUp == End(run).gaveUp
    ensures End(run).client.delivered <= End(whole).client.delivered
    decreases Work(End(run), s)
  {
    hide Closed, Next, Init, Stuck, Work;
    if Stuck(End(run), s) {
      whole := run;
    } else {
      var n' := Move(End(run), s);
      StepWorks(End(run), n', s);
      var longer := ExtendRun(run, s, left, n');
      whole := CanFinish(longer, s, left);
    }
  }

  // ----- the bound is met -----

  lemma StartsWithData(rules: seq<Rule>, i: nat)
    requires rules != []
    ensures RuleActs(rules, i) != [] && IsData()(RuleActs(rules, i)[0])
  {
  }

  /** The script up to its `k`-th rule message: what comes before, then that message. */
  lemma ScriptUpTo(f: RuleSpec.Firewall, pattern: Rule, k: nat) returns (before: seq<Act>, next: Act)
    requires 0 < k <= |Listed(f, pattern)|
    ensures before == RuleActs(Listed(f, pattern)[..k-1], 0) && IsData()(next)
    ensures var s, q := Script(f, pattern), |before| + 3; q <= |s| && s[..q] == s[..2] + before + [next]
  {
    hide Listed, RuleActs, PolicyRecord;
    var rules := Listed(f, pattern);
    var more := rules[k-1..];
    assert rules == rules[..k-1] + more;
    RuleActsAppend(rules[..k-1], more, 0);
    StartsWithData(more, k - 1);
    before, next := RuleActs(rules[..k-1], 0), RuleActs(more, k - 1)[0];
    var s := Script(f, pattern);
    UpTo(s, s[..2], before, RuleActs(more, k - 1), [Send(Done(Low32(|rules|)))]);
  }

  lemma UpTo(s: seq<Act>, head: seq<Act>, before: seq<Act>, after: seq<Act>, tail: seq<Act>)
    requires s == head + (before + after) + tail && |head| == 2 && after != []
    ensures |before| + 3 <= |s| && s[..|before|+3] == s[..2] + before + [after[0]]
  {
  }

  lemma CountsUpTo(head: seq<Act>, rules: seq<Rule>, next: Act)
    requires |head| == 2 && (forall j | 0 <= j < 2 :: IsData()(head[j]) && !head[j].m.ack) && IsData()(next)
    ensures var acts := head + RuleActs(rules, 0) + [next];
      Count(acts, IsData()) == 3 + |rules| && Count(acts, IsWait()) == |rules| / ACK_EVERY_N_MSG
  {
    var before := RuleActs(rules, 0);
    RuleActsPaced(rules, 0, |before|);
    RuleActsData(rules, 0);
    assert before[..|before|] == before;
    hide RuleActs, Count;
    HeadThen(head, before);
    CountAppend(head + before, [next], IsData());
    CountAppend(head + before, [next], IsWait());
    CountOne(next, IsData());
    CountOne(next, IsWait());
  }

  /** The step after which `k` rules are out and all earlier flags are waited for. */
  lemma StepOfRule(f: RuleSpec.Firewall, pattern: Rule, k: nat) returns (q: nat)
    requires 0 < k <= |Listed(f, pattern)|
    ensures q <= |Script(f, pattern)| && RulesSent(Script(f, pattern), q) == k
    ensures Waited(Script(f, pattern), q) == (k - 1) / ACK_EVERY_N_MSG
  {
    var before, next := ScriptUpTo(f, pattern, k);
    var head := Script(f, pattern)[..2];
    hide Script, Listed, RuleActs, Count;
    q := |before| + 3;
    ScriptHead(f, pattern);
    CountsUpTo(head, Listed(f, pattern)[..k-1], next);
  }

  lemma ScriptHead(f: RuleSpec.Firewall, pattern: Rule)
    ensures var s := Script(f, pattern);
      |s| >= 2 && forall j | 0 <= j < 2 :: IsData()(s[..2][j]) && !s[..2][j].m.ack
  {
  }

  /** The bound is exact: with no timeout, some run does get min(n, 50 * (1 + left)) rules
      ahead. So a window of fifty is kept on all runs just when no completion is left over
      or the listing is no longer than fifty. */
  lemma WindowMet(f: RuleSpec.Firewall, pattern: Rule, left: nat, k: nat)
    requires 0 < k <= |Listed(f, pattern)| && k <= ACK_EVERY_N_MSG * (1 + left)
    ensures exists run: seq<Net> ::
      && IsRun(run, Script(f, pattern), left) && End(run).late == 0
      && End(run).pc <= |Script(f, pattern)| && Unacknowledged(End(run), Script(f, pattern)) == k
  {
    var s := Script(f, pattern);
    var q := StepOfRule(f, pattern, k);
    hide Script, RulesSent, Waited, IsRun;
    assert (k - 1) / ACK_EVERY_N_MSG <= left;
    var run := AloneRun(s, left, q);
  }

  /** The condition for a window of fifty, over every run without a timeout. */
  lemma WindowOfFiftyIff(f: RuleSpec.Firewall, pattern: Rule, left: nat)
    ensures (forall run: seq<Net>, i: nat |
               IsRun(run, Script(f, pattern), left) && i < |run| && run[i].late == 0
                 && run[i].pc <= |Script(f, pattern)| ::
               Unacknowledged(run[i], Script(f, pattern)) <= ACK_EVERY_N_MSG)
       <==> left == 0 || |Listed(f, pattern)| <= ACK_EVERY_N_MSG
  {
    var s := Script(f, pattern);
    hide Script, Listed, Unacknowledged;
    if left == 0 || |Listed(f, pattern)| <= ACK_EVERY_N_MSG {
      forall run: seq<Net>, i: nat | IsRun(run, s, left) && i < |run| && run[i].late == 0 && run[i].pc <= |s|
        ensures Unacknowledged(run[i], s) <= ACK_EVERY_N_MSG
      {
        WindowBound(run, f, pattern, left, i);
      }
    } else {
      WindowMet(f, pattern, left, ACK_EVERY_N_MSG + 1);
      var run: seq<Net> :| && run != [] && IsRun(run, s, left) && End(run).late == 0
        && End(run).pc <= |s| && Unacknowledged(End(run), s) == ACK_EVERY_N_MSG + 1;
      var i: nat := |run| - 1;
      assert run[i].late == 0;
    }
  }

  // ----- the client's timer -----

  lemma TakeOne(run: seq<Net>, s: seq<Act>, left: nat) returns (longer: seq<Net>)
    requires run != [] && IsRun(run, s, left) && End(run).toClient != [] && !End(run).client.crashed
    ensures longer != [] && IsRun(longer, s, left) && End(longer).pc == End(run).pc
    ensures End(longer).client == Received(End(run).client, End(run).toClient[0])
  {
    var n := End(run);
    var m := n.toClient[0];
    var n' := n.(toClient := n.toClient[1..],
                 toKernel := n.toKernel + (if m.Data? && m.ack then 1 else 0),
                 client := Received(n.client, m));
    assert ClientStep(n, n');
    longer := ExtendRun(run, s, left, n');
  }

  lemma GiveUp(run: seq<Net>, s: seq<Act>, left: nat) returns (longer: seq<Net>)
    requires run != [] && IsRun(run, s, left) && End(run).client.list.Some?
    ensures longer != [] && IsRun(longer, s, left) && End(longer).pc == End(run).pc
    ensures End(longer).client == GivenUp(End(run).client) && End(longer).gaveUp
  {
    var n' := End(run).(client := GivenUp(End(run).client), gaveUp := true);
    assert GiveUpStep(End(run), n');
    longer := ExtendRun(run, s, left, n');
  }

  /** With the whole script sent, the client can have taken the first `k` rules. */
  lemma {:induction false} TakenRun(f: RuleSpec.Firewall, pattern: Rule, left: nat, k: nat) returns (run: seq<Net>)
    requires k <= |Carried(f, pattern)|
    ensures IsRun(run, Script(f, pattern), left) && End(run).pc == |Script(f, pattern)|
    ensures End(run).client.list.Some? && |End(run).client.list.value| == k
  {
    var s := Script(f, pattern);
    hide Script, Carried, Waited, Sends, Next, Init;
    if k == 0 {
      run := AloneRun(s, left, |s|);
    } else {
      run := TakenRun(f, pattern, left, k - 1);
      ScriptClosed(f, pattern);
      RunInvariant(run, s, left, |run| - 1);
      SentSoFar(s, |s|);
      ScriptPayload(f, pattern);
      hide Acks, Flagged, Closed;
      var ms := End(run).toClient;
      if ms[0].Done? {
        assert ms == [ms[0]];
        PayloadOne(ms[0]);
        assert false;
      }
      run := TakeOne(run, s, left);
    }
  }

  /** The client's timer can cut a listing short anywhere: for each `k` some run ends with
      the first `k` rules handed out as the list, and with MSG_DONE meeting no list. */
  lemma CutAnywhere(f: RuleSpec.Firewall, pattern: Rule, left: nat, k: nat)
    requires k <= |Carried(f, pattern)|
    ensures exists run: seq<Net> ::
      && IsRun(run, Script(f, pattern), left) && Stuck(End(run), Script(f, pattern))
      && End(run).client.delivered == [Cut(Carried(f, pattern), k)] && End(run).client.crashed
  {
    var s := Script(f, pattern);
    var run := TakenRun(f, pattern, left, k);
    ListingArrives(run, f, pattern, left, |run| - 1);
    ScriptClosed(f, pattern);
    hide Script, Carried, Closed, Stuck, IsRun;
    var list := End(run).client.list.value;
    run := GiveUp(run, s, left);
    var whole := CanFinish(run, s, left);
    ListingArrives(whole, f, pattern, left, |whole| - 1);
    var d := End(whole).client.delivered;
    assert [list] <= d && |d| == 1;
    assert d == [list] && list == Cut(Carried(f, pattern), k);
  }

  // ----- listings one after the other -----

  /** A finished listing leaves one completion for each wait that timed out, on top of those
      it found. */
  lemma CompletionsLeft(run: seq<Net>, f: RuleSpec.Firewall, pattern: Rule, left: nat, i: nat)
    requires IsRun(run, Script(f, pattern), left) && i < |run| && Stuck(run[i], Script(f, pattern))
    ensures run[i].comp == left + run[i].late
  {
    var s, n := Script(f, pattern), run[i];
    ListingArrives(run, f, pattern, left, i);
    ScriptClosed(f, pattern);
    RunInvariant(run, s, left, i);
    ScriptPaced(f, pattern, n.pc);
    hide Script, IsRun, Waited, Flagged, RulesSent, Conserved, Carried;
    assert n.toClient == [];
  }

  datatype Session = Session(f: RuleSpec.Firewall, pattern: Rule, run: seq<Net>)

  /** Listings of one kernel: each but the last is finished, and each finds the completions
      the one before left. */
  ghost predicate Series(ss: seq<Session>, left: nat)
    decreases |ss|
  {
    && ss != [] && IsRun(ss[0].run, Script(ss[0].f, ss[0].pattern), left)
    && (|ss| > 1 ==>
      Stuck(End(ss[0].run), Script(ss[0].f, ss[0].pattern)) && Series(ss[1..], End(ss[0].run).comp))
  }

  /** All waits that have timed out. */
  function Lates(ss: seq<Session>): nat {
    if ss == [] then 0 else (if ss[0].run == [] then 0 else End(ss[0].run).late) + Lates(ss[1..])
  }

  /** Fifty rules ahead, and fifty more for every wait that has timed out since the module
      was loaded, in this listing or in any before it. */
  lemma {:induction false} SeriesWindow(ss: seq<Session>, left: nat)
    requires Series(ss, left)
    ensures var x := ss[|ss|-1]; var s := Script(x.f, x.pattern);
      && x.run != [] && End(x.run).pc <= |s|
      && Unacknowledged(End(x.run), s) <= ACK_EVERY_N_MSG * (1 + left + Lates(ss))
    decreases |ss|
  {
    var x, rest := ss[0], ss[1..];
    assert x.run != [];
    hide Unacknowledged, Script, IsRun, Stuck;
    if |ss| == 1 {
      WindowBound(x.run, x.f, x.pattern, left, |x.run| - 1);
    } else {
      CompletionsLeft(x.run, x.f, x.pattern, left, |x.run| - 1);
      SeriesWindow(rest, End(x.run).comp);
      assert rest[|rest|-1] == ss[|ss|-1];
    }
  }

  /** In a listing of more than fifty rules the first wait can time out and no other, which
      leaves one completion behind. */
  lemma OneTimeout(f: RuleSpec.Firewall, pattern: Rule) returns (run: seq<Net>)
    requires |Listed(f, pattern)| > ACK_EVERY_N_MSG
    ensures run != [] && IsRun(run, Script(f, pattern), 0) && Stuck(End(run), Script(f, pattern))
    ensures End(run).late == End(run).comp == 1
  {
    var s := Script(f, pattern);
    var q := StepOfRule(f, pattern, ACK_EVERY_N_MSG + 1);
    ScriptClosed(f, pattern);
    hide Script, RulesSent, Waited, Listed, Stuck, Closed, Next, Init;
    run := AloneRun(s, 0, q);
    run := CanFinish(run, s, 0);
    CompletionsLeft(run, f, pattern, 0, |run| - 1);
  }

  /** And then the next listing can get fifty-one rules ahead with no wait timing out. */
  lemma OneTimeoutWidens(f: RuleSpec.Firewall, pattern: Rule)
    requires |Listed(f, pattern)| > ACK_EVERY_N_MSG
    ensures exists ss: seq<Session> ::
      && |ss| == 2 && Series(ss, 0) && ss[1].run != [] && End(ss[0].run).late == 1 && End(ss[1].run).late == 0
      && ss[1] == Session(f, pattern, ss[1].run) && End(ss[1].run).pc <= |Script(f, pattern)|
      && Unacknowledged(End(ss[1].run), Script(f, pattern)) == ACK_EVERY_N_MSG + 1
  {
    var s := Script(f, pattern);
    var run := OneTimeout(f, pattern);
    WindowMet(f, pattern, 1, ACK_EVERY_N_MSG + 1);
    var next: seq<Net> :| && IsRun(next, s, 1) && End(next).late == 0
      && End(next).pc <= |s| && Unacknowledged(End(next), s) == ACK_EVERY_N_MSG + 1;
    hide Script, Listed, Stuck, Unacknowledged, Next, Init;
    var ss := [Session(f, pattern, run), Session(f, pattern, next)];
    TwoSessions(ss[0], ss[1], 0);
    assert Series(ss, 0) && ss[1].run == next;
  }

  lemma TwoSessions(x: Session, y: Session, left: nat)
    requires IsRun(x.run, Script(x.f, x.pattern), left) && Stuck(End(x.run), Script(x.f, x.pattern))
    requires IsRun(y.run, Script(y.f, y.pattern), End(x.run).comp)
    ensures Series([x, y], left)
  {
    hide Init, Next, Stuck, Script;
    assert [x, y][1..] == [y];
    assert Series([y], End(x.run).comp);
  }
}
