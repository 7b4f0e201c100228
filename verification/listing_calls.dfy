/** One client asking for listing after listing over one socket: what the calls after a
    listing that was cut short are given. */
module ListingCalls {
  import opened Seqs
  import opened TrxData
  import opened Listing
  import opened Collector

  /** A call of getRulesSync: `idle` messages are processed before it, its own listing
      sends `own`, and `n` messages come in before its timer fires. */
  datatype Call = Call(idle: nat, own: seq<NlMsg>, n: nat)

  /** The client, and the messages sent and not yet processed. */
  datatype Session = Session(client: Client, queue: seq<NlMsg>)

  const STARTED := Session(Client(None, [], [], false), [])

  function ReceivedAll(c: Client, ms: seq<NlMsg>): Client
    decreases |ms|
  {
    if ms == [] then c else ReceivedAll(Received(c, ms[0]), ms[1..])
  }

  /** What the wait of one call leaves unprocessed. */
  function Rest(ms: seq<NlMsg>, n: nat): seq<NlMsg> {
    if ms == [] || n == 0 then ms else if ms[0].Done? then ms[1..] else Rest(ms[1..], n - 1)
  }

  /** The rules it collects: up to the first end mark, its own or not. */
  function Taken(ms: seq<NlMsg>, n: nat): seq<Rule> {
    if ms == [] || n == 0 || ms[0].Done? then [] else [ms[0].fr] + Taken(ms[1..], n - 1)
  }

  function Waiting(s: Session, call: Call): seq<NlMsg> { Drop(s.queue, call.idle) + call.own }

  function Drop<T>(s: seq<T>, n: nat): seq<T> { if n < |s| then s[n..] else [] }

  /** One call. */
  function Serve(s: Session, call: Call): Session {
    var c := ReceivedAll(s.client, Cut(s.queue, call.idle));
    Session(Collect(c.(list := Some([])), Waiting(s, call), call.n), Rest(Waiting(s, call), call.n))
  }

  function ServeAll(s: Session, calls: seq<Call>): Session
    decreases |calls|
  {
    if calls == [] then s else ServeAll(Serve(s, calls[0]), calls[1..])
  }

  predicate NoDone(ms: seq<NlMsg>) { forall m | m in ms :: m.Data? }

  predicate EndsDone(ms: seq<NlMsg>) { ms != [] && ms[|ms|-1].Done? }

  /** MSG_DONE came in before the timer: of the caller's own listing when nothing is queued. */
  predicate Whole(call: Call) { call.n >= |call.own| }

  predicate AllClosing(calls: seq<Call>) { forall x | x in calls :: Closing(x.own) }

  predicate AllWhole(calls: seq<Call>) { forall x | x in calls :: Whole(x) }

  /** Messages processed between calls crash the client exactly when an end mark is among them. */
  lemma {:induction false} IdleCrash(c: Client, ms: seq<NlMsg>)
    requires c.list.None?
    ensures var c' := ReceivedAll(c, ms);
      c'.list.None? && c'.delivered == c.delivered && (c'.crashed <==> c.crashed || !NoDone(ms))
    decreases |ms|
  {
    if ms == [] {
    } else {
      IdleCrash(Received(c, ms[0]), ms[1..]);
      assert ms == [ms[0]] + ms[1..];
    }
  }

  /** A call hands out exactly what it took. */
  lemma {:induction false} CollectTakes(c: Client, ms: seq<NlMsg>, n: nat)
    requires c.list.Some?
    ensures Collect(c, ms, n) == c.(list := None, delivered := c.delivered + [c.list.value + Taken(ms, n)])
    decreases |ms|
  {
    if ms == [] || n == 0 || ms[0].Done? {
      assert c.list.value + [] == c.list.value;
    } else {
      CollectTakes(Received(c, ms[0]), ms[1..], n - 1);
      Assoc(c.list.value, [ms[0].fr], Taken(ms[1..], n - 1));
    }
  }

  lemma {:induction false} TakenOwn(own: seq<NlMsg>, n: nat)
    requires Closing(own)
    ensures Taken(own, n) == Got(Payload(own), Heard(n))
    ensures Rest(own, n) == [] <==> n >= |own|
    ensures Rest(own, n) != [] ==> EndsDone(Rest(own, n))
  {
    if n == 0 {
      assert EndsDone(own);
    } else if own[0].Done? {
      assert own == [own[0]];
      PayloadOne(own[0]);
    } else {
      ClosingTail(own);
      TakenStep(own, n);
      hide Closing, Taken, Rest, Payload, EndsDone;
      TakenOwn(own[1..], n - 1);
      CutOn(own[0].fr, Payload(own[1..]), n);
    }
  }

  lemma TakenStep(own: seq<NlMsg>, n: nat)
    requires own != [] && own[0].Data? && n > 0
    ensures Taken(own, n) == [own[0].fr] + Taken(own[1..], n - 1) && Rest(own, n) == Rest(own[1..], n - 1)
    ensures Payload(own) == [own[0].fr] + Payload(own[1..])
  {
  }

  lemma ClosingTail(own: seq<NlMsg>)
    requires Closing(own) && own[0].Data?
    ensures own[1..] != [] && Closing(own[1..]) && EndsDone(own)
  {
    forall j | 0 <= j < |own[1..]| ensures own[1..][j] == own[j+1] {}
  }

  /** With an end mark queued, neither what is taken nor that something stays queued has
      to do with what comes behind it. */
  lemma {:induction false} TakenStale(stale: seq<NlMsg>, own: seq<NlMsg>, n: nat)
    requires EndsDone(stale)
    ensures Taken(stale + own, n) == Taken(stale, n)
    ensures EndsDone(own) ==> EndsDone(Rest(stale + own, n))
  {
    var ms := stale + own;
    if n == 0 || stale[0].Done? {
      assert stale[0].Done? ==> ms[1..] == stale[1..] + own;
    } else {
      assert ms[1..] == stale[1..] + own;
      TakenStale(stale[1..], own, n - 1);
    }
  }

  lemma {:induction false} CrashLasts(s: Session, calls: seq<Call>)
    requires AllClosing(calls) && s.client.list.None? && s.client.crashed
    ensures ServeAll(s, calls).client.crashed
    decreases |calls|
  {
    if calls == [] {
    } else {
      var call := calls[0];
      assert calls == [call] + calls[1..];
      IdleCrash(s.client, Cut(s.queue, call.idle));
      CollectTakes(ReceivedAll(s.client, Cut(s.queue, call.idle)).(list := Some([])), Waiting(s, call), call.n);
      CrashLasts(Serve(s, call), calls[1..]);
    }
  }

  /** Between calls: the client is idle, and messages are queued exactly when some call so
      far was cut short; they end with an end mark then. */
  lemma {:induction false} Queued(s: Session, calls: seq<Call>)
    requires AllClosing(calls) && s.client.list.None? && (s.queue == [] || EndsDone(s.queue))
    requires !ServeAll(s, calls).client.crashed
    ensures var s' := ServeAll(s, calls);
      && !s.client.crashed && s'.client.list.None? && (s'.queue == [] || EndsDone(s'.queue))
      && (s'.queue == [] <==> s.queue == [] && AllWhole(calls))
    decreases |calls|
  {
    if calls == [] {
    } else {
      var call, more := calls[0], calls[1..];
      assert call in calls && calls == [call] + more;
      ServeOne(s, call);
      hide Serve;
      if Serve(s, call).client.crashed { CrashLasts(Serve(s, call), more); }
      Queued(Serve(s, call), more);
    }
  }

  lemma StillQueued(queue: seq<NlMsg>, idle: nat)
    requires queue == [] || EndsDone(queue)
    ensures NoDone(Cut(queue, idle)) ==>
      (Drop(queue, idle) == [] <==> queue == []) && (queue != [] ==> EndsDone(Drop(queue, idle)))
  {
    if queue != [] && idle >= |queue| { assert queue[|queue|-1] in Cut(queue, idle); }
  }

  lemma ServeOne(s: Session, call: Call)
    requires Closing(call.own) && s.client.list.None? && (s.queue == [] || EndsDone(s.queue))
    ensures var s' := Serve(s, call);
      && s'.client.list.None? && (s'.client.crashed <==> s.client.crashed || !NoDone(Cut(s.queue, call.idle)))
      && s'.client.delivered == s.client.delivered + [Taken(Waiting(s, call), call.n)]
      && (!s'.client.crashed ==>
            && (s'.queue == [] || EndsDone(s'.queue))
            && (s'.queue == [] <==> s.queue == [] && Whole(call)))
  {
    var c := ReceivedAll(s.client, Cut(s.queue, call.idle));
    IdleCrash(s.client, Cut(s.queue, call.idle));
    CollectTakes(c.(list := Some([])), Waiting(s, call), call.n);
    assert [] + Taken(Waiting(s, call), call.n) == Taken(Waiting(s, call), call.n);
    StillQueued(s.queue, call.idle);
    hide ReceivedAll, Collect, Taken, Rest, NoDone, Cut, Drop;
    if NoDone(Cut(s.queue, call.idle)) {
      ServedQueue(Drop(s.queue, call.idle), call.own, call.n);
    }
  }

  lemma ServedQueue(stale: seq<NlMsg>, own: seq<NlMsg>, n: nat)
    requires Closing(own) && (stale == [] || EndsDone(stale))
    ensures var rest := Rest(stale + own, n);
      (rest == [] || EndsDone(rest)) && (rest == [] <==> stale == [] && n >= |own|)
  {
    if stale == [] {
      assert stale + own == own;
      TakenOwn(own, n);
    } else {
      TakenStale(stale, own, n);
    }
  }

  /** What a call after `calls` gets. */
  function Answer(calls: seq<Call>, call: Call): seq<Rule> {
    Taken(Waiting(ServeAll(STARTED, calls), call), call.n)
  }

  /** The client is alive when the call begins. */
  predicate Alive(calls: seq<Call>, idle: nat) {
    var s := ServeAll(STARTED, calls);
    !s.client.crashed && NoDone(Cut(s.queue, idle))
  }

  /** That is the list getRulesSync returns. */
  lemma AnswerIsDelivered(calls: seq<Call>, call: Call)
    requires AllClosing(calls) && Closing(call.own) && Alive(calls, call.idle)
    ensures var s := ServeAll(STARTED, calls);
      Serve(s, call).client.delivered == s.client.delivered + [Answer(calls, call)]
  {
    Queued(STARTED, calls);
    ServeOne(ServeAll(STARTED, calls), call);
  }

  /** A call that lives to collect anything is given its own listing, whatever that holds,
      exactly when no call before it was cut short. After a cut, for good, each is given
      what an earlier one left behind. */
  lemma OwnListingIff(calls: seq<Call>, idle: nat, n: nat)
    requires AllClosing(calls) && Alive(calls, idle) && n > 0
    ensures (forall own: seq<NlMsg> | Closing(own) ::
               Answer(calls, Call(idle, own, n)) == Got(Payload(own), Heard(n)))
       <==> AllWhole(calls)
  {
    var queue := ServeAll(STARTED, calls).queue;
    Queued(STARTED, calls);
    StillQueued(queue, idle);
    var stale := Drop(queue, idle);
    hide ServeAll, AllWhole, NoDone, AllClosing, Drop, Cut;
    if stale == [] {
      forall own: seq<NlMsg> | Closing(own) ensures Answer(calls, Call(idle, own, n)) == Got(Payload(own), Heard(n)) {
        TakenOwn(own, n);
        assert stale + own == own;
      }
    } else {
      var own := Telling(stale);
      TakenStale(stale, own, n);
      TakenOwn(own, n);
      TellingApart(stale, n);
      assert Answer(calls, Call(idle, own, n)) != Got(Payload(own), Heard(n));
    }
  }

  /** A listing of one rule that is not the one queued first. */
  function Telling(stale: seq<NlMsg>): seq<NlMsg>
    requires stale != []
  {
    var r := Rule(Base(0, 0, 0, 0, 0, 0), 0, 0, 0);
    [Data(if stale[0] == Data(r, stale[0].Data? && stale[0].ack) then r.(id := 1) else r, false), Done(1)]
  }

  lemma TellingApart(stale: seq<NlMsg>, n: nat)
    requires stale != [] && n > 0
    ensures Closing(Telling(stale)) && Taken(Telling(stale), n) != Taken(stale, n)
  {
    var own := Telling(stale);
    assert own[1..] == [own[1]];
    assert Taken(own[1..], n - 1) == [];
    assert Taken(own, n) == [own[0].fr];
    if stale[0].Data? { assert Taken(stale, n)[0] == stale[0].fr; }
  }
}
