/** BFControl: process() for the messages of a listing, and the wait of getRulesSync. */
module Collector {
  import opened Seqs
  import opened TrxData
  import opened Listing

  /** The client's collection: the list being filled, the lists callers have got, the rules
      signalled one by one for want of a list, and whether MSG_DONE dereferenced null. */
  datatype Client = Client(list: Option<seq<Rule>>, delivered: seq<seq<Rule>>, singly: seq<Rule>, crashed: bool)

  function Received(c: Client, m: NlMsg): Client {
    match m
    case Done(_) =>
      if c.list.Some? then c.(list := None, delivered := c.delivered + [c.list.value]) else c.(crashed := true)
    case Data(fr, _) =>
      if c.list.Some? then c.(list := Some(c.list.value + [fr])) else c.(singly := c.singly + [fr])
  }

  /** The timer of getRulesSync fires: the caller gets the list as it stands. */
  function GivenUp(c: Client): Client
    requires c.list.Some?
  {
    c.(list := None, delivered := c.delivered + [c.list.value])
  }

  /** How a request went: the socket refused it, or `n` messages came in before the timer. */
  datatype Reach = Refused | Heard(n: nat)

  /** The wait of getRulesSync. No message restarts its timer: restart() hangs on the
      signal for single rules, which is not emitted while a list is being filled. */
  function Collect(c: Client, ms: seq<NlMsg>, n: nat): Client
    decreases |ms|
  {
    if c.list.None? then c
    else if ms == [] || n == 0 then GivenUp(c)
    else Collect(Received(c, ms[0]), ms[1..], n - 1)
  }

  function Reached(reach: Reach): nat { if reach.Refused? then 0 else reach.n }

  /** What a caller gets of a listing that carries `rules`. */
  function Got(rules: seq<Rule>, reach: Reach): seq<Rule> { Cut(rules, Reached(reach)) }

  /** The end mark is there, and last. */
  predicate Closing(ms: seq<NlMsg>) {
    ms != [] && forall j | 0 <= j < |ms| :: (ms[j].Done? <==> j == |ms| - 1)
  }

  /** The caller gets the rules heard in time, all of them or not; nothing tells the two apart. */
  lemma {:induction false} CollectsInTime(c: Client, ms: seq<NlMsg>, n: nat)
    requires Closing(ms) && c.list.Some?
    ensures Collect(c, ms, n) ==
      c.(list := None, delivered := c.delivered + [c.list.value + Got(Payload(ms), Heard(n))])
    decreases |ms|
  {
    if n == 0 {
      assert c.list.value + Cut(Payload(ms), 0) == c.list.value;
    } else if ms[0].Done? {
      assert ms == [ms[0]];
      PayloadOne(ms[0]);
      assert c.list.value + [] == c.list.value;
    } else {
      CollectsInTime(Received(c, ms[0]), ms[1..], n - 1);
      CutOn(ms[0].fr, Payload(ms[1..]), n);
      Assoc(c.list.value, [ms[0].fr], Cut(Payload(ms[1..]), n - 1));
    }
  }

  lemma CutOn(r: Rule, rest: seq<Rule>, n: nat)
    requires n > 0
    ensures Cut([r] + rest, n) == [r] + Cut(rest, n - 1)
  {
  }

  class BFControl {
    var ruleslst: Option<seq<Rule>>
    var delivered: seq<seq<Rule>>
    var singly: seq<Rule>
    var crashed: bool

    /** No listing asked for yet. The original leaves the list pointer uninitialised; that
        it starts out null is an assumption. */
    constructor ()
      ensures State() == Client(None, [], [], false)
    {
      ruleslst, delivered, singly, crashed := None, [], [], false;
    }

    function State(): Client
      reads this
    {
      Client(ruleslst, delivered, singly, crashed)
    }

    /** process() for the messages of a listing; a null list is dereferenced by MSG_DONE. */
    method Process(m: NlMsg) returns (acked: bool)
      modifies this
      ensures State() == Received(old(State()), m) && acked == (m.Data? && m.ack)
    {
      match m
      case Done(_) =>
        if ruleslst.Some? {
          delivered := delivered + [ruleslst.value];
          ruleslst := None;
        } else {
          crashed := true;
        }
        acked := false;
      case Data(fr, ack) =>
        if ruleslst.Some? {
          ruleslst := Some(ruleslst.value + [fr]);
        } else {
          singly := singly + [fr];
        }
        acked := ack;
    }

    /** getRulesSync while the messages `ms` arrive. A refused request leaves the list
        pointer on the caller's list. */
    method GetRulesSync(ms: seq<NlMsg>, reach: Reach) returns (list: seq<Rule>)
      modifies this
      ensures reach.Refused? ==> list == [] && State() == old(State()).(list := Some([]))
      ensures reach.Heard? ==> State() == Collect(old(State()).(list := Some([])), ms, reach.n)
      ensures reach.Heard? ==> ruleslst.None? && delivered != [] && list == delivered[|delivered|-1]
      ensures reach.Heard? && Closing(ms) ==>
        list == Got(Payload(ms), reach) && State() == old(State()).(list := None, delivered := old(delivered) + [list])
    {
      ruleslst := Some([]);
      if reach.Refused? { return []; }
      ghost var c := State();
      var i := 0;
      while ruleslst.Some? && i < |ms| && i < reach.n
        invariant i <= |ms| && i <= reach.n
        invariant Collect(State(), ms[i..], reach.n - i) == Collect(c, ms, reach.n)
        invariant if ruleslst.Some? then delivered == c.delivered else delivered != []
      {
        assert ms[i..][1..] == ms[i+1..];
        var acked := Process(ms[i]);
        i := i + 1;
      }
      if ruleslst.Some? {
        delivered, ruleslst := delivered + [ruleslst.value], None;
      }
      list := delivered[|delivered|-1];
      if Closing(ms) { CollectsInTime(c, ms, reach.n); }
    }
  }
}
