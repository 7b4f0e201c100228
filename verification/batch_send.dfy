/** nl_send_lst of nl_int.c: the rule list sent in batches, every second one acknowledged. */
module BatchSend {
  import opened Seqs
  import opened TrxData
  import opened Listing

  datatype BatchAct = Unicast(ms: seq<NlMsg>) | WaitOk

  function Message(r: Rule): NlMsg { Data(r, false) }

  function Plain(): Rule -> NlMsg { (r: Rule) => Message(r) }

  /** A full batch: the last message of every second one asks for an MSG_OK. */
  function FullBatch(rules: seq<Rule>, n: nat): seq<NlMsg>
    requires rules != []
  {
    Map(rules[..|rules|-1], Plain()) + [Data(rules[|rules|-1], n % 2 == 0)]
  }

  /** The batches for `rules` on from number `n`: full ones, then what is left over. */
  function Batches(rules: seq<Rule>, size: nat, n: nat): seq<BatchAct>
    requires size > 0
    decreases |rules|
  {
    if |rules| < size then (if rules == [] then [] else [Unicast(Map(rules, Plain()))])
    else
      var wait := if n % 2 == 0 then [WaitOk] else [];
      [Unicast(FullBatch(rules[..size], n))] + wait + Batches(rules[size..], size, n + 1)
  }

  function Sent(acts: seq<BatchAct>): seq<NlMsg> {
    if acts == [] then [] else (if acts[0].Unicast? then acts[0].ms else []) + Sent(acts[1..])
  }

  // ----- what the batches carry -----

  lemma {:induction false} SentAppend(a: seq<BatchAct>, b: seq<BatchAct>)
    ensures Sent(a + b) == Sent(a) + Sent(b)
  {
    if a == [] {
      assert a + b == b;
    } else {
      SentAppend(a[1..], b);
      assert (a + b)[1..] == a[1..] + b;
      Assoc(if a[0].Unicast? then a[0].ms else [], Sent(a[1..]), Sent(b));
    }
  }

  lemma SentOne(a: BatchAct)
    ensures Sent([a]) == if a.Unicast? then a.ms else []
  {
    assert [a][1..] == [];
  }

  lemma {:induction false} PlainPayload(rules: seq<Rule>)
    ensures Payload(Map(rules, Plain())) == rules
  {
    if rules == [] {
    } else {
      PlainPayload(rules[1..]);
      assert Map(rules, Plain())[1..] == Map(rules[1..], Plain());
    }
  }

  lemma FullPayload(rules: seq<Rule>, n: nat)
    requires rules != []
    ensures Payload(FullBatch(rules, n)) == rules && |FullBatch(rules, n)| == |rules|
  {
    var front, last := rules[..|rules|-1], Data(rules[|rules|-1], n % 2 == 0);
    PlainPayload(front);
    PayloadAppend(Map(front, Plain()), [last]);
    PayloadOne(last);
    MapIndex(front, Plain());
  }

  lemma Headed(ms: seq<NlMsg>, wait: bool, rest: seq<BatchAct>)
    ensures Payload(Sent([Unicast(ms)] + (if wait then [WaitOk] else []) + rest)) == Payload(ms) + Payload(Sent(rest))
  {
    var w := if wait then [WaitOk] else [];
    SentOne(Unicast(ms));
    SentOne(WaitOk);
    SentAppend([Unicast(ms)] + w, rest);
    SentAppend([Unicast(ms)], w);
    assert ms + [] == ms;
    PayloadAppend(ms, Sent(rest));
  }

  /** Every rule goes out exactly once, in list order. */
  lemma {:induction false} BatchesCarryAll(rules: seq<Rule>, size: nat, n: nat)
    requires size > 0
    ensures Payload(Sent(Batches(rules, size, n))) == rules
    decreases |rules|
  {
    if |rules| < size {
      if rules != [] {
        SentOne(Unicast(Map(rules, Plain())));
        PlainPayload(rules);
      }
    } else {
      FullPayload(rules[..size], n);
      BatchesCarryAll(rules[size..], size, n + 1);
      Headed(FullBatch(rules[..size], n), n % 2 == 0, Batches(rules[size..], size, n + 1));
      assert rules[..size] + rules[size..] == rules;
    }
  }

  /** A batch whose last message carries the ACK flag; no other message may. */
  predicate Flagged(ms: seq<NlMsg>) { ms != [] && ms[|ms|-1].Data? && ms[|ms|-1].ack }

  predicate OnlyLastFlagged(ms: seq<NlMsg>) {
    forall k | 0 <= k < |ms| - 1 :: ms[k].Data? && !ms[k].ack
  }

  lemma BatchFlag(rules: seq<Rule>, n: nat)
    requires rules != []
    ensures OnlyLastFlagged(FullBatch(rules, n)) && (Flagged(FullBatch(rules, n)) <==> n % 2 == 0)
    ensures OnlyLastFlagged(Map(rules, Plain())) && !Flagged(Map(rules, Plain()))
  {
    MapIndex(rules, Plain());
    MapIndex(rules[..|rules|-1], Plain());
  }

  /** The `k`-th step of a sending: a batch, full unless it is the last step, waited for
      exactly if it is flagged; or the wait for the batch before it. */
  predicate StepOk(acts: seq<BatchAct>, k: nat, size: nat)
    requires k < |acts|
  {
    match acts[k]
    case Unicast(ms) =>
      && 0 < |ms| <= size && OnlyLastFlagged(ms) && (k < |acts| - 1 ==> |ms| == size)
      && (Flagged(ms) <==> k + 1 < |acts| && acts[k+1].WaitOk?)
    case WaitOk => k > 0 && acts[k-1].Unicast? && Flagged(acts[k-1].ms)
  }

  lemma ShapeHead(rules: seq<Rule>, n: nat, rest: seq<BatchAct>, k: nat)
    requires rules != [] && (rest != [] ==> rest[0].Unicast?)
    requires k < if n % 2 == 0 then 2 else 1
    ensures var w := if n % 2 == 0 then [WaitOk] else [];
      StepOk([Unicast(FullBatch(rules, n))] + w + rest, k, |rules|)
  {
    FullPayload(rules, n);
    BatchFlag(rules, n);
    hide FullBatch, OnlyLastFlagged, Flagged;
  }

  /** All batches but the last are full, none is empty, and a wait comes exactly after
      each batch whose last message, and no other, carries the flag. */
  lemma {:induction false} BatchesShape(rules: seq<Rule>, size: nat, n: nat, k: nat)
    requires size > 0 && k < |Batches(rules, size, n)|
    ensures StepOk(Batches(rules, size, n), k, size)
    decreases |rules|
  {
    if |rules| < size {
      MapIndex(rules, Plain());
      BatchFlag(rules, n);
    } else {
      var head := [Unicast(FullBatch(rules[..size], n))] + if n % 2 == 0 then [WaitOk] else [];
      var rest := Batches(rules[size..], size, n + 1);
      hide StepOk, FullBatch;
      if k < |head| {
        ShapeHead(rules[..size], n, rest, k);
      } else {
        BatchesShape(rules[size..], size, n + 1, k - |head|);
      }
    }
  }

  /** Of each batch, whether it is flagged. */
  function Flags(acts: seq<BatchAct>): seq<bool> {
    if acts == [] then []
    else (if acts[0].Unicast? then [Flagged(acts[0].ms)] else []) + Flags(acts[1..])
  }

  lemma {:induction false} FlagsAppend(a: seq<BatchAct>, b: seq<BatchAct>)
    ensures Flags(a + b) == Flags(a) + Flags(b)
  {
    if a == [] {
      assert a + b == b;
    } else {
      FlagsAppend(a[1..], b);
      assert (a + b)[1..] == a[1..] + b;
      Assoc(if a[0].Unicast? then [Flagged(a[0].ms)] else [], Flags(a[1..]), Flags(b));
    }
  }

  lemma FlagsOne(a: BatchAct)
    ensures Flags([a]) == if a.Unicast? then [Flagged(a.ms)] else []
  {
    assert [a][1..] == [];
  }

  lemma FlagsHead(rules: seq<Rule>, n: nat, rest: seq<BatchAct>)
    requires rules != []
    ensures Flags([Unicast(FullBatch(rules, n))] + (if n % 2 == 0 then [WaitOk] else []) + rest) ==
      [n % 2 == 0] + Flags(rest)
  {
    var u, w := Unicast(FullBatch(rules, n)), if n % 2 == 0 then [WaitOk] else [];
    BatchFlag(rules, n);
    FlagsOne(u);
    FlagsOne(WaitOk);
    FlagsAppend([u] + w, rest);
    FlagsAppend([u], w);
  }

  /** Of the batches numbered on from `n`, just the full ones with an even number are flagged. */
  lemma {:induction false} EvenBatchesFlagged(rules: seq<Rule>, size: nat, n: nat, k: nat)
    requires size > 0
    ensures var fs := Flags(Batches(rules, size, n));
      && |rules| <= |fs| * size < |rules| + size
      && (k < |fs| ==> (fs[k] <==> (k + 1) * size <= |rules| && (n + k) % 2 == 0))
    decreases |rules|
  {
    if |rules| < size {
      FewFlags(rules, size, n);
      Times(k, size);
    } else {
      var rest := Batches(rules[size..], size, n + 1);
      FlagsHead(rules[..size], n, rest);
      var fs := Flags(Batches(rules, size, n));
      hide Batches, Flags, FullBatch;
      EvenBatchesFlagged(rules[size..], size, n + 1, if k > 0 then k - 1 else 0);
      NextFlag(fs, Flags(rest), |rules|, size, n, k);
    }
  }

  lemma FewFlags(rules: seq<Rule>, size: nat, n: nat)
    requires |rules| < size
    ensures Flags(Batches(rules, size, n)) == if rules == [] then [] else [false]
  {
    if rules != [] {
      FlagsOne(Unicast(Map(rules, Plain())));
      BatchFlag(rules, n);
    }
  }

  lemma NextFlag(fs: seq<bool>, more: seq<bool>, total: nat, size: nat, n: nat, k: nat)
    requires 0 < size <= total && fs == [n % 2 == 0] + more && total - size <= |more| * size < total
    requires 0 < k <= |more| ==> (more[k-1] <==> k * size <= total - size && (n + k) % 2 == 0)
    ensures total <= |fs| * size < total + size
    ensures k < |fs| ==> (fs[k] <==> (k + 1) * size <= total && (n + k) % 2 == 0)
  {
    Times(k, size);
    Times(|more|, size);
  }

  lemma Times(k: nat, size: nat)
    ensures (k + 1) * size == k * size + size >= size
  {
  }

  // ----- the loop -----

  lemma PlainSnoc(rules: seq<Rule>, r: Rule)
    ensures Map(rules + [r], Plain()) == Map(rules, Plain()) + [Data(r, false)]
  {
    MapAppend(rules, [r], Plain());
    assert Map([r], Plain()) == [Data(r, false)];
  }

  /** The loop's variables: the buffer being filled, whether the last message fitted in
      it, its rule count, and the number of the batch. */
  datatype Filling = Filling(skb: Option<seq<NlMsg>>, fits: bool, i: nat, msgCnt: nat)

  /** The batch in progress holds `pending`. */
  predicate Holds(f: Filling, pending: seq<Rule>, size: nat) {
    && f.i == |pending| < size
    && (if pending == [] then f.skb == None else f.fits && f.skb == Some(Map(pending, Plain())))
  }

  /** Messages sent or still in the buffer. */
  function Alive(f: Filling, acts: seq<BatchAct>): nat {
    |Sent(acts)| + if f.skb.Some? then |f.skb.value| else 0
  }

  /** The body of the loop. `room` is the number of messages a buffer takes: one that does
      not fit is dropped, and the buffer with it when the next entry comes. */
  function Put(f: Filling, r: Rule, size: nat, room: nat): (Filling, seq<BatchAct>) {
    var skb := if f.i == 0 || f.i == size || !f.fits || f.skb.None? then [] else f.skb.value;
    var fits := |skb| < room;
    var full := if fits then skb + [Data(r, f.msgCnt % 2 == 0 && f.i == size - 1)] else skb;
    if f.i + 1 == size then
      (Filling(None, fits, 0, f.msgCnt + 1), [Unicast(full)] + if f.msgCnt % 2 == 0 then [WaitOk] else [])
    else (Filling(Some(full), fits, f.i + 1, f.msgCnt), [])
  }

  lemma PutFits(f: Filling, r: Rule, size: nat, room: nat, pending: seq<Rule>)
    requires Holds(f, pending, size) && |pending| + 1 < size && |pending| < room
    ensures Put(f, r, size, room).1 == []
    ensures Put(f, r, size, room).0.msgCnt == f.msgCnt && Holds(Put(f, r, size, room).0, pending + [r], size)
  {
    MapIndex(pending, Plain());
    PlainSnoc(pending, r);
    assert pending == [] ==> [] + [Data(r, false)] == [Data(r, false)];
  }

  lemma PutFills(f: Filling, r: Rule, size: nat, room: nat, pending: seq<Rule>, later: seq<Rule>)
    requires 0 < size <= room && Holds(f, pending, size) && |pending| + 1 == size
    ensures Holds(Put(f, r, size, room).0, [], size)
    ensures var (g, more) := Put(f, r, size, room);
      Batches(pending + [r] + later, size, f.msgCnt) == more + Batches(later, size, g.msgCnt)
  {
    MapIndex(pending, Plain());
  }

  /** Messages sent or still in the buffer never outnumber the entries, and one that finds
      no room is lost. */
  lemma PutLoses(f: Filling, r: Rule, size: nat, room: nat)
    requires size > 0
    ensures var (g, more) := Put(f, r, size, room);
      && Alive(g, more) <= Alive(f, []) + 1
      && (f.i == 0 && room == 0 ==> Alive(g, more) <= Alive(f, []))
      && (f.skb.Some? && |f.skb.value| == room && f.fits && 0 < f.i < size ==> Alive(g, more) <= Alive(f, []))
  {
    var (g, more) := Put(f, r, size, room);
    if more != [] {
      SentOne(more[0]);
      if |more| == 2 {
        assert more == [more[0]] + [more[1]];
        SentOne(more[1]);
        SentAppend([more[0]], [more[1]]);
      }
    }
  }

  /** The loop invariant while everything fits. */
  ghost predicate OnTrack(f: Filling, acts: seq<BatchAct>, pending: seq<Rule>, later: seq<Rule>, whole: seq<BatchAct>,
      size: nat)
    requires size > 0
  {
    Holds(f, pending, size) && whole == acts + Batches(pending + later, size, f.msgCnt)
  }

  lemma StaysOnTrack(f: Filling, acts: seq<BatchAct>, pending: seq<Rule>, r: Rule, later: seq<Rule>,
      whole: seq<BatchAct>, size: nat, room: nat)
    requires size > 0 && OnTrack(f, acts, pending, [r] + later, whole, size)
    requires |pending| < room
    ensures var (g, more) := Put(f, r, size, room);
      OnTrack(g, acts + more, if |pending| + 1 == size then [] else pending + [r], later, whole, size)
  {
    var (g, more) := Put(f, r, size, room);
    Assoc(pending, [r], later);
    if |pending| + 1 == size {
      PutFills(f, r, size, room, pending, later);
      Assoc(acts, more, Batches(later, size, g.msgCnt));
      assert [] + later == later;
    } else {
      PutFits(f, r, size, room, pending);
      assert acts + more == acts;
    }
  }

  /** The count while a buffer may be too small: once the first one has been filled, some
      entry has been lost for good. */
  predicate Lossy(f: Filling, acts: seq<BatchAct>, j: nat, size: nat, room: nat) {
    && f.i < size
    && (if j <= room then acts == [] && f.i == j && (j > 0 ==> f.fits && f.skb.Some? && |f.skb.value| == j)
      && (j == 0 ==> f.skb.None?)
        else Alive(f, acts) < j)
  }

  lemma AliveAppend(f: Filling, acts: seq<BatchAct>, more: seq<BatchAct>)
    ensures Alive(f, acts + more) == |Sent(acts)| + Alive(f, more)
  {
    SentAppend(acts, more);
  }

  lemma StaysLossy(f: Filling, acts: seq<BatchAct>, r: Rule, j: nat, size: nat, room: nat)
    requires room < size && Lossy(f, acts, j, size, room)
    ensures var (g, more) := Put(f, r, size, room); Lossy(g, acts + more, j + 1, size, room)
  {
    var (g, more) := Put(f, r, size, room);
    PutLoses(f, r, size, room);
    AliveAppend(g, acts, more);
    AliveAppend(f, acts, []);
    assert acts + [] == acts;
  }

  /** The loop body: its sends and waits, and the variables it leaves. */
  method PutRule(skb: Option<seq<NlMsg>>, nlh: bool, i: nat, msgCnt: nat, r: Rule, size: nat, room: nat)
    returns (skb': Option<seq<NlMsg>>, nlh': bool, i': nat, msgCnt': nat, more: seq<BatchAct>)
    ensures (Filling(skb', nlh', i', msgCnt'), more) == Put(Filling(skb, nlh, i, msgCnt), r, size, room)
  {
    skb', nlh', i', msgCnt', more := skb, nlh, i, msgCnt, [];
    if i' == 0 || i' == size || !nlh' || skb'.None? { skb' := Some([]); }
    var flag := msgCnt' % 2 == 0 && i' == size - 1;
    nlh' := |skb'.value| < room;
    if nlh' { skb' := Some(skb'.value + [Data(r, flag)]); }
    i' := i' + 1;
    if i' == size {
      more := [Unicast(skb'.value)];
      skb', i' := None, 0;
      assert more == more + [];
      if msgCnt' % 2 == 0 { more := more + [WaitOk]; }
      msgCnt' := msgCnt' + 1;
    }
  }

  lemma Finish(f: Filling, sent: seq<BatchAct>, rules: seq<Rule>, pending: seq<Rule>, size: nat, room: nat)
    requires size > 0 && LoopOk(f, sent, pending, rules, |rules|, size, room)
    ensures var acts := if f.skb.Some? then sent + [Unicast(f.skb.value)] else sent;
      && (Fits(rules, size, room) ==> acts == Batches(rules, size, 1))
      && (Payload(Sent(acts)) == rules <==> Fits(rules, size, room))
  {
    var acts := if f.skb.Some? then sent + [Unicast(f.skb.value)] else sent;
    BatchesCarryAll(rules, size, 1);
    if Fits(rules, size, room) {
      assert rules[|rules|..] == [] && pending + [] == pending;
    } else {
      if f.skb.Some? {
        SentOne(Unicast(f.skb.value));
        SentAppend(sent, [Unicast(f.skb.value)]);
      }
      PayloadLength(Sent(acts));
    }
  }

  lemma {:induction false} PayloadLength(ms: seq<NlMsg>)
    ensures |Payload(ms)| <= |ms|
  {
    if ms == [] {
    } else {
      PayloadLength(ms[1..]);
    }
  }

  predicate Fits(rules: seq<Rule>, size: nat, room: nat) { size <= room || |rules| <= room }

  /** Where the loop stands after `j` entries. */
  ghost predicate LoopOk(f: Filling, acts: seq<BatchAct>, pending: seq<Rule>, rules: seq<Rule>, j: nat, size: nat,
      room: nat)
    requires size > 0 && j <= |rules|
  {
    if Fits(rules, size, room)
    then OnTrack(f, acts, pending, rules[j..], Batches(rules, size, 1), size) && (|rules| <= room ==> |pending| <= j)
    else Lossy(f, acts, j, size, room)
  }

  function NextPending(pending: seq<Rule>, r: Rule, size: nat): seq<Rule> {
    if |pending| + 1 == size then [] else pending + [r]
  }

  lemma LoopStarts(rules: seq<Rule>, size: nat, room: nat)
    requires size > 0
    ensures LoopOk(Filling(None, false, 0, 1), [], [], rules, 0, size, room)
  {
    assert rules[0..] == rules && [] + rules == rules;
  }

  lemma LoopGoesOn(f: Filling, acts: seq<BatchAct>, pending: seq<Rule>, rules: seq<Rule>, j: nat, size: nat, room: nat)
    requires size > 0 && j < |rules| && LoopOk(f, acts, pending, rules, j, size, room)
    ensures var (g, more) := Put(f, rules[j], size, room);
      LoopOk(g, acts + more, NextPending(pending, rules[j], size), rules, j + 1, size, room)
  {
    hide Put;
    if Fits(rules, size, room) {
      assert rules[j..] == [rules[j]] + rules[j+1..];
      StaysOnTrack(f, acts, pending, rules[j], rules[j+1..], Batches(rules, size, 1), size, room);
    } else {
      StaysLossy(f, acts, rules[j], j, size, room);
    }
  }

  /** nl_send_lst past its size check. It returns the list's length whatever was dropped,
      and carries the whole list, in full batches, exactly when a buffer holds a batch or
      the list fits one buffer. */
  method SendBatches(rules: seq<Rule>, size: nat, room: nat) returns (acts: seq<BatchAct>, rulesCnt: nat)
    requires size > 0
    ensures rulesCnt == |rules|
    ensures Fits(rules, size, room) ==> acts == Batches(rules, size, 1)
    ensures Payload(Sent(acts)) == rules <==> Fits(rules, size, room)
  {
    hide Put, Batches, Sent, Payload, LoopOk, Fits;
    acts, rulesCnt := [], 0;
    var skb: Option<seq<NlMsg>>, nlh, i: nat, msgCnt: nat := None, false, 0, 1;
    ghost var pending := [];
    LoopStarts(rules, size, room);
    var j := 0;
    while j < |rules|
      invariant j <= |rules| && rulesCnt == j
      invariant LoopOk(Filling(skb, nlh, i, msgCnt), acts, pending, rules, j, size, room)
    {
      LoopGoesOn(Filling(skb, nlh, i, msgCnt), acts, pending, rules, j, size, room);
      rulesCnt := rulesCnt + 1;
      var more;
      skb, nlh, i, msgCnt, more := PutRule(skb, nlh, i, msgCnt, rules[j], size, room);
      acts := acts + more;
      pending := NextPending(pending, rules[j], size);
      j := j + 1;
    }
    Finish(Filling(skb, nlh, i, msgCnt), acts, rules, pending, size, room);
    if skb.Some? { acts := acts + [Unicast(skb.value)]; }
  }

  // ----- the default batch -----

  const NLMSG_HDRLEN: nat := 16
  const RULE_SIZE: nat := 33

  function NlmsgAlign(n: nat): nat { (n + 3) / 4 * 4 }

  /** Messages that fit the buffer nlmsg_new makes for `d` payload bytes: each takes its
      aligned size, and the buffer is taken to have no slack behind its aligned own. */
  function Room(d: nat): nat { NlmsgAlign(NLMSG_HDRLEN + d) / NlmsgAlign(NLMSG_HDRLEN + RULE_SIZE) }

  /** The batch size zero stands for, `d` being NLMSG_DEFAULT_SIZE. */
  function DefaultBatch(d: nat): nat { d / (RULE_SIZE + NLMSG_HDRLEN) }

  /** The default batch forgets alignment: it is more than its buffer holds, unless that is
      tiny, so a list longer than the buffer loses rules; batches of twenty do fit. */
  lemma DefaultOverfills(rules: seq<Rule>, d: nat)
    requires d > 1126
    ensures Room(d) < DefaultBatch(d)
    ensures Fits(rules, DefaultBatch(d), Room(d)) <==> |rules| <= Room(d)
    ensures Fits(rules, 20, Room(d))
  {
    var a, b := DefaultBatch(d), Room(d);
    assert 49 * a <= d < 49 * a + 49;
    assert 52 * b <= NlmsgAlign(NLMSG_HDRLEN + d) < 52 * b + 52;
  }

  /** nl_send_lst, `d` being NLMSG_DEFAULT_SIZE, which the kernel's page size fixes. */
  method SendLst(rules: seq<Rule>, lstSize: int, d: nat) returns (acts: seq<BatchAct>, ret: int)
    ensures var size := if lstSize == 0 then DefaultBatch(d) else lstSize;
      if size <= 0 then ret == -1 && acts == []
      else
        && ret == |rules|
        && (Fits(rules, size, Room(d)) ==> acts == Batches(rules, size, 1))
        && (Payload(Sent(acts)) == rules <==> Fits(rules, size, Room(d)))
    ensures lstSize == 0 && d > 1126 ==> (Payload(Sent(acts)) == rules <==> |rules| <= Room(d))
    ensures lstSize == 20 && d > 1126 ==> acts == Batches(rules, 20, 1) && Payload(Sent(acts)) == rules
  {
    var size := if lstSize == 0 then DefaultBatch(d) else lstSize;
    if size <= 0 { return [], -1; }
    if d > 1126 { DefaultOverfills(rules, d); }
    hide Fits, Batches, Payload, Sent, Room, DefaultBatch;
    acts, ret := SendBatches(rules, size, Room(d));
  }
}
