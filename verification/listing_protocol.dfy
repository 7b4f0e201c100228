/** A listing in flight: the kernel thread running its script, two FIFO channels, the
    completion MSG_OK signals, and BFControl collecting on the other side until MSG_DONE
    or its own timer ends the collection. */
module ListingProtocol {
  import opened Seqs
  import opened TrxData
  import opened Listing
  import opened Collector
  import RuleSpec

  /** `pc` steps of the script are done; `late` waits gave up after their second; `gaveUp`
      says that the client's timer fired while it was still collecting. */
  datatype Net = Net(
    pc: nat,
    toClient: seq<NlMsg>,
    toKernel: nat,
    comp: nat,
    received: nat,
    late: nat,
    client: Client,
    gaveUp: bool)

  predicate SendStep(n: Net, n': Net, s: seq<Act>) {
    n.pc < |s| && s[n.pc].Send? && n' == n.(pc := n.pc + 1, toClient := n.toClient + [s[n.pc].m])
  }

  predicate WaitStep(n: Net, n': Net, s: seq<Act>) {
    n.pc < |s| && s[n.pc].Wait? && n.comp > 0 && n' == n.(pc := n.pc + 1, comp := n.comp - 1)
  }

  predicate TimeoutStep(n: Net, n': Net, s: seq<Act>) {
    n.pc < |s| && s[n.pc].Wait? && n.comp == 0 && n' == n.(pc := n.pc + 1, late := n.late + 1)
  }

  predicate ClientStep(n: Net, n': Net) {
    && n.toClient != [] && !n.client.crashed
    && var m := n.toClient[0];
    && n' == n.(toClient := n.toClient[1..],
                toKernel := n.toKernel + (if m.Data? && m.ack then 1 else 0),
                client := Received(n.client, m))
  }

  predicate OkStep(n: Net, n': Net) {
    n.toKernel > 0 && n' == n.(toKernel := n.toKernel - 1, comp := n.comp + 1, received := n.received + 1)
  }

  predicate GiveUpStep(n: Net, n': Net) {
    n.client.list.Some? && n' == n.(client := GivenUp(n.client), gaveUp := true)
  }

  predicate Next(n: Net, n': Net, s: seq<Act>) {
    || SendStep(n, n', s) || WaitStep(n, n', s) || TimeoutStep(n, n', s)
    || ClientStep(n, n') || OkStep(n, n') || GiveUpStep(n, n')
  }

  /** getRules has put an empty list in place; `comp` is whatever earlier listings left. */
  predicate Init(n: Net, left: nat) {
    n == Net(0, [], 0, left, 0, 0, Client(Some([]), [], [], false), false)
  }

  function Acks(ms: seq<NlMsg>): nat {
    if ms == [] then 0 else (if ms[0].Data? && ms[0].ack then 1 else 0) + Acks(ms[1..])
  }

  /** The client has processed MSG_DONE, with a list to hand out or without. */
  predicate Finished(n: Net) {
    n.client.crashed || (n.client.list.None? && !n.gaveUp)
  }

  /** MSG_DONE is on its way, behind everything else, exactly once the script is through
      and until the client has processed it. */
  predicate DoneLast(n: Net, s: seq<Act>) {
    && (forall j | 0 <= j < |n.toClient| :: n.toClient[j].Done? ==> j == |n.toClient| - 1 && n.pc == |s|)
    && (n.pc == |s| && !Finished(n) ==> n.toClient != [] && n.toClient[|n.toClient|-1].Done?)
    && (Finished(n) ==> n.pc == |s| && n.toClient == [])
  }

  /** Whatever was sent is in the client's list, was signalled singly, or is on its way. */
  predicate Conserved(c: Client, gaveUp: bool, onWay: seq<Rule>, sent: seq<Rule>) {
    match c.list
    case Some(l) => !gaveUp && c.delivered == [] && c.singly == [] && !c.crashed && l + onWay == sent
    case None =>
      && |c.delivered| == 1 && c.delivered[0] + c.singly + onWay == sent
      && (!gaveUp ==> c.singly == [] && !c.crashed)
  }

  ghost predicate Invariant(n: Net, s: seq<Act>, left: nat) {
    && n.pc <= |s|
    && n.comp + Waited(s, n.pc) == left + n.received + n.late
    && n.received + n.toKernel + Acks(n.toClient) == Flagged(s, n.pc)
    && DoneLast(n, s)
    && Conserved(n.client, n.gaveUp, Payload(n.toClient), Payload(Sends(s[..n.pc])))
  }

  /** The only end mark of a script is its last step, and it closes with one. */
  predicate Closed(s: seq<Act>) {
    s != [] && forall j | 0 <= j < |s| :: (s[j].Send? && s[j].m.Done? <==> j == |s| - 1)
  }

  lemma InitInvariant(n: Net, s: seq<Act>, left: nat)
    requires Init(n, left) && Closed(s)
    ensures Invariant(n, s, left)
  {
    assert s[..0] == [];
  }

  lemma Advance(s: seq<Act>, q: nat)
    requires q < |s|
    ensures Waited(s, q + 1) == Waited(s, q) + (if s[q].Wait? then 1 else 0)
    ensures Flagged(s, q + 1) == Flagged(s, q) + (if IsFlagged()(s[q]) then 1 else 0)
    ensures Payload(Sends(s[..q+1])) == Payload(Sends(s[..q])) + (if IsData()(s[q]) then [s[q].m.fr] else [])
  {
    assert s[..q+1] == s[..q] + [s[q]];
    CountAppend(s[..q], [s[q]], IsWait());
    CountAppend(s[..q], [s[q]], IsFlagged());
    CountOne(s[q], IsWait());
    CountOne(s[q], IsFlagged());
    SendsAppend(s[..q], [s[q]]);
    SendsOne(s[q]);
    PayloadAppend(Sends(s[..q]), Sends([s[q]]));
    if s[q].Send? { PayloadOne(s[q].m); }
  }

  lemma {:induction false} AcksAppend(a: seq<NlMsg>, m: NlMsg)
    ensures Acks(a + [m]) == Acks(a) + if m.Data? && m.ack then 1 else 0
  {
    if a == [] {
      assert a + [m] == [m];
      assert [m][1..] == [];
    } else {
      AcksAppend(a[1..], m);
      assert (a + [m])[1..] == a[1..] + [m];
    }
  }

  lemma SendInvariant(n: Net, n': Net, s: seq<Act>, left: nat)
    requires Closed(s) && Invariant(n, s, left) && SendStep(n, n', s)
    ensures Invariant(n', s, left)
  {
    hide Acks, Payload, Sends, Waited, Flagged, Conserved;
    var m := s[n.pc].m;
    Advance(s, n.pc);
    AcksAppend(n.toClient, m);
    PayloadAppend(n.toClient, [m]);
    PayloadOne(m);
    ConservedSend(n.client, n.gaveUp, Payload(n.toClient), Payload(Sends(s[..n.pc])), Payload([m]));
  }

  lemma ConservedSend(c: Client, gaveUp: bool, onWay: seq<Rule>, sent: seq<Rule>, more: seq<Rule>)
    requires Conserved(c, gaveUp, onWay, sent)
    ensures Conserved(c, gaveUp, onWay + more, sent + more)
  {
    match c.list
    case Some(l) => Assoc(l, onWay, more);
    case None => Assoc(c.delivered[0] + c.singly, onWay, more);
  }

  lemma WaitInvariant(n: Net, n': Net, s: seq<Act>, left: nat)
    requires Closed(s) && Invariant(n, s, left) && (WaitStep(n, n', s) || TimeoutStep(n, n', s))
    ensures Invariant(n', s, left)
  {
    hide Acks, Payload, Sends, Waited, Flagged, Conserved;
    Advance(s, n.pc);
    assert Payload(Sends(s[..n.pc])) + [] == Payload(Sends(s[..n.pc]));
  }

  lemma ConservedData(c: Client, gaveUp: bool, onWay: seq<Rule>, sent: seq<Rule>, m: NlMsg)
    requires m.Data? && Conserved(c, gaveUp, [m.fr] + onWay, sent) && (c.list.None? ==> gaveUp)
    ensures Conserved(Received(c, m), gaveUp, onWay, sent)
  {
    match c.list
    case Some(l) => Assoc(l, [m.fr], onWay);
    case None =>
      Assoc(c.delivered[0] + c.singly, [m.fr], onWay);
      Assoc(c.delivered[0], c.singly, [m.fr]);
  }

  lemma ConservedDone(c: Client, gaveUp: bool, sent: seq<Rule>, m: NlMsg)
    requires m.Done? && Conserved(c, gaveUp, [], sent) && (c.list.None? ==> gaveUp)
    ensures Conserved(Received(c, m), gaveUp, [], sent)
  {
    if c.list.Some? { assert c.list.value + [] == c.list.value + [] + []; }
  }

  lemma ClientInvariant(n: Net, n': Net, s: seq<Act>, left: nat)
    requires Closed(s) && Invariant(n, s, left) && ClientStep(n, n')
    ensures Invariant(n', s, left)
  {
    assert n.client.list.Some? <==> !n.gaveUp;
    hide Sends, Waited, Flagged, Conserved;
    var m, sent := n.toClient[0], Payload(Sends(s[..n.pc]));
    if m.Data? {
      ConservedData(n.client, n.gaveUp, Payload(n'.toClient), sent, m);
    } else {
      assert n.toClient == [m] && n'.toClient == [];
      PayloadOne(m);
      ConservedDone(n.client, n.gaveUp, sent, m);
    }
  }

  lemma OkInvariant(n: Net, n': Net, s: seq<Act>, left: nat)
    requires Invariant(n, s, left) && OkStep(n, n')
    ensures Invariant(n', s, left)
  {
    hide Acks, Payload, Sends, Waited, Flagged, Conserved;
  }

  lemma GiveUpInvariant(n: Net, n': Net, s: seq<Act>, left: nat)
    requires Invariant(n, s, left) && GiveUpStep(n, n')
    ensures Invariant(n', s, left)
  {
    hide Acks, Payload, Sends, Waited, Flagged;
    assert n.client.list.value + [] == n.client.list.value;
  }

  lemma StepInvariant(n: Net, n': Net, s: seq<Act>, left: nat)
    requires Closed(s) && Invariant(n, s, left) && Next(n, n', s)
    ensures Invariant(n', s, left)
  {
    hide Invariant, Closed;
    if SendStep(n, n', s) {
      SendInvariant(n, n', s, left);
    } else if WaitStep(n, n', s) || TimeoutStep(n, n', s) {
      WaitInvariant(n, n', s, left);
    } else if ClientStep(n, n') {
      ClientInvariant(n, n', s, left);
    } else if OkStep(n, n') {
      OkInvariant(n, n', s, left);
    } else {
      GiveUpInvariant(n, n', s, left);
    }
  }

  // ----- runs of a real listing -----

  lemma {:induction false} RuleActsNotDone(rules: seq<Rule>, i: nat, j: nat)
    requires j < |RuleActs(rules, i)|
    ensures var a := RuleActs(rules, i)[j]; a.Send? ==> a.m.Data?
  {
    var n := |RuleAct(rules[0], i + 1)|;
    if j < n {
    } else {
      RuleActsNotDone(rules[1..], i + 1, j - n);
    }
  }

  lemma ScriptClosed(f: RuleSpec.Firewall, pattern: Rule)
    ensures Closed(Script(f, pattern))
  {
    var s, mid := Script(f, pattern), RuleActs(Listed(f, pattern), 0);
    forall j | 0 <= j < |s| ensures s[j].Send? && s[j].m.Done? <==> j == |s| - 1 {
      if 2 <= j < |s| - 1 { RuleActsNotDone(Listed(f, pattern), 0, j - 2); }
    }
  }

  lemma {:induction false} SendsClosing(s: seq<Act>)
    requires Closed(s)
    ensures Closing(Sends(s))
  {
    if |s| == 1 {
      SendsOne(s[0]);
    } else {
      SendsClosing(s[1..]);
      assert s == [s[0]] + s[1..];
      SendsOne(s[0]);
      SendsAppend([s[0]], s[1..]);
    }
  }

  ghost predicate IsRun(run: seq<Net>, s: seq<Act>, left: nat) {
    && run != [] && Init(run[0], left)
    && forall i | 0 <= i < |run| - 1 :: Next(run[i], run[i+1], s)
  }

  lemma {:induction false} RunInvariant(run: seq<Net>, s: seq<Act>, left: nat, i: nat)
    requires Closed(s) && IsRun(run, s, left) && i < |run|
    ensures Invariant(run[i], s, left)
  {
    hide Invariant, Closed, Init;
    if i == 0 {
      InitInvariant(run[0], s, left);
    } else {
      RunInvariant(run, s, left, i - 1);
      StepInvariant(run[i-1], run[i], s, left);
    }
  }

  /** Rule messages sent and not yet covered by an MSG_OK, each of which covers fifty. */
  function Unacknowledged(n: Net, s: seq<Act>): int
    requires n.pc <= |s|
  {
    RulesSent(s, n.pc) - ACK_EVERY_N_MSG * n.received
  }

  /** Never more than fifty rules ahead of the client's last acknowledgement, plus fifty for
      every completion left over from before and every wait that timed out. */
  lemma WindowBound(run: seq<Net>, f: RuleSpec.Firewall, pattern: Rule, left: nat, i: nat)
    requires IsRun(run, Script(f, pattern), left) && i < |run|
    ensures run[i].pc <= |Script(f, pattern)|
    ensures Unacknowledged(run[i], Script(f, pattern)) <= ACK_EVERY_N_MSG * (1 + left + run[i].late)
    ensures Unacknowledged(run[i], Script(f, pattern)) <= |Listed(f, pattern)|
  {
    var s, n := Script(f, pattern), run[i];
    ScriptClosed(f, pattern);
    RunInvariant(run, s, left, i);
    ScriptPaced(f, pattern, n.pc);
    hide Script, DoneLast, IsRun, Acks, Waited, Flagged, RulesSent, Sends, Payload;
    assert RulesSent(s, n.pc) / ACK_EVERY_N_MSG == Flagged(s, n.pc);
    if WaitsNext(s, n.pc) {
      assert RulesSent(s, n.pc) == ACK_EVERY_N_MSG * Flagged(s, n.pc);
    }
  }

  /** Nobody can move, but for the timers. */
  predicate Stuck(n: Net, s: seq<Act>) {
    && !(n.pc < |s| && s[n.pc].Send?)
    && !(WaitsNext(s, n.pc) && n.comp > 0)
    && n.toKernel == 0
    && (n.toClient == [] || n.client.crashed)
  }

  lemma SentSoFar(s: seq<Act>, q: nat)
    requires q <= |s|
    ensures Payload(Sends(s[..q])) <= Payload(Sends(s))
    ensures q == |s| ==> Payload(Sends(s[..q])) == Payload(Sends(s))
  {
    assert s[..q] + s[q..] == s;
    SendsAppend(s[..q], s[q..]);
    PayloadAppend(Sends(s[..q]), Sends(s[q..]));
    assert q == |s| ==> s[..q] == s;
  }

  lemma StuckIsFinished(n: Net, s: seq<Act>, left: nat)
    requires Invariant(n, s, left) && Stuck(n, s)
    requires Pace(RulesSent(s, n.pc), Waited(s, n.pc), Flagged(s, n.pc), 0, WaitsNext(s, n.pc))
    ensures Finished(n) && n.pc == |s|
  {
    hide RulesSent, Waited, Flagged, Conserved;
  }

  lemma Whole(c: Client, gaveUp: bool, sent: seq<Rule>)
    requires Conserved(c, gaveUp, [], sent) && (c.crashed || (c.list.None? && !gaveUp))
    ensures |c.delivered| == 1 && c.delivered[0] + c.singly == sent
    ensures c.delivered == [sent] && !c.crashed <==> !gaveUp
  {
    assert c.delivered[0] + c.singly + [] == c.delivered[0] + c.singly;
    assert c.delivered[0] + [] == c.delivered[0];
  }

  /** At every point the list in hand, or handed out, is the beginning of the carried one:
      both policies, then the selected rules in order, numbered from 1. Once MSG_DONE is
      processed, that is the whole of it and MSG_DONE found a list exactly when the
      client's timer had not fired; otherwise the rest was signalled rule by rule. And a
      listing that can go no further without a timer is through on both sides. */
  lemma ListingArrives(run: seq<Net>, f: RuleSpec.Firewall, pattern: Rule, left: nat, i: nat)
    requires IsRun(run, Script(f, pattern), left) && i < |run|
    ensures match run[i].client.list
      case Some(l) => l <= Carried(f, pattern) && run[i].client.delivered == []
      case None => |run[i].client.delivered| == 1 && run[i].client.delivered[0] <= Carried(f, pattern)
    ensures Finished(run[i]) ==>
      && (run[i].client.delivered == [Carried(f, pattern)] && !run[i].client.crashed <==> !run[i].gaveUp)
      && |run[i].client.delivered| == 1 && run[i].client.delivered[0] + run[i].client.singly == Carried(f, pattern)
    ensures Stuck(run[i], Script(f, pattern)) ==> Finished(run[i]) && run[i].pc == |Script(f, pattern)|
  {
    var s, n := Script(f, pattern), run[i];
    ScriptClosed(f, pattern);
    RunInvariant(run, s, left, i);
    ScriptPaced(f, pattern, n.pc);
    ScriptPayload(f, pattern);
    SentSoFar(s, n.pc);
    if Stuck(n, s) { StuckIsFinished(n, s, left); }
    hide Script, IsRun, Waited, Flagged, RulesSent, Sends, Carried, Acks, Pace, Stuck;
    if Finished(n) { Whole(n.client, n.gaveUp, Carried(f, pattern)); }
  }

  // ----- how long a listing takes -----

  /** Work left: three for a send, two for a message under way, one for the rest. */
  function Work(n: Net, s: seq<Act>): nat
    requires n.pc <= |s|
  {
    3 * (|s| - n.pc) + 2 * |n.toClient| + n.toKernel + if n.client.list.Some? then 1 else 0
  }

  /** Every step uses up work, so no run outlasts three steps per script entry and one. */
  lemma {:induction false} ListingEnds(run: seq<Net>, s: seq<Act>, left: nat)
    requires Closed(s) && IsRun(run, s, left)
    ensures run[|run|-1].pc <= |s| && |run| - 1 + Work(run[|run|-1], s) <= 3 * |s| + 1
  {
    RunInvariant(run, s, left, |run| - 1);
    if |run| == 1 {
    } else {
      var shorter := run[..|run|-1];
      ListingEnds(shorter, s, left);
      hide Invariant, Closed;
      assert Next(run[|run|-2], run[|run|-1], s);
      StepWorks(run[|run|-2], run[|run|-1], s);
    }
  }

  lemma StepWorks(n: Net, n': Net, s: seq<Act>)
    requires n.pc <= |s| && n'.pc <= |s| && Next(n, n', s)
    ensures Work(n', s) < Work(n, s)
  {
  }
}
