/** Length-prefixed frames over local sockets: what sendResponse and sendCommand write,
    and how the two readyRead slots put the stream back together. */
module Frames {
  import opened Seqs
  import opened TrxData

  type Body = seq<u8>

  const MAX_BODY: nat := 0x8000_0000

  /** The four size bytes in host order, then the body. */
  function Frame(b: Body): seq<u8>
    requires |b| < MAX_BODY
  {
    Le32(|b|) + b
  }

  predicate Sendable(bodies: seq<Body>) { forall b | b in bodies :: |b| < MAX_BODY }

  function Stream(bodies: seq<Body>): seq<u8>
    requires Sendable(bodies)
  {
    if bodies == [] then [] else Frame(bodies[0]) + Stream(bodies[1..])
  }

  /** The four bytes read into an int. */
  function Signed(b: seq<u8>): int
    requires |b| >= 4
  {
    if Value32(b) < MAX_BODY then Value32(b) else Value32(b) - 2 * MAX_BODY
  }

  /** A receiver between two slots: the size it waits for (none if not positive) and the
      bytes it has not consumed. */
  datatype Pending = Pending(wanted: int, buffer: seq<u8>)

  function ReadSize(p: Pending): Pending {
    if p.wanted <= 0 && |p.buffer| >= 4 then Pending(Signed(p.buffer), p.buffer[4..]) else p
  }

  /** One readyRead: what is left pending, and the bodies handed on. */
  function Drain(p: Pending): (Pending, seq<Body>)
    decreases |p.buffer|
  {
    var q := ReadSize(p);
    if 0 < q.wanted <= |q.buffer| then
      var body, rest := q.buffer[..q.wanted], q.buffer[q.wanted..];
      if rest == [] then (Pending(0, []), [body])
      else
        var (r, more) := Drain(Pending(0, rest));
        (r, [body] + more)
    else (q, [])
  }

  /** A socket's share of BFLocalServer, and BFLocalControlPrivate: only the initial
      `wanted` differs, -1 and 0. */
  class Receiver {
    var wanted: int
    var buffer: seq<u8>
    var delivered: seq<Body>

    constructor (wanted: int)
      requires wanted <= 0
      ensures this.wanted == wanted && buffer == [] && delivered == []
    {
      this.wanted, buffer, delivered := wanted, [], [];
    }

    /** The slot: at most one size and one body, then again while bytes remain. */
    method OnReadyRead()
      modifies this
      ensures var (p, out) := Drain(old(Pending(wanted, buffer)));
        Pending(wanted, buffer) == p && delivered == old(delivered) + out
      decreases |buffer|
    {
      hide Drain, Signed;
      DrainUnfolds(Pending(wanted, buffer));
      if wanted <= 0 {
        if |buffer| >= 4 {
          wanted, buffer := Signed(buffer), buffer[4..];
        }
      }
      if wanted > 0 && |buffer| >= wanted {
        var ba := buffer[..wanted];
        buffer := buffer[wanted..];
        Assoc(delivered, [ba], Drain(Pending(0, buffer)).1);
        delivered := delivered + [ba];
        wanted := 0;
        if |buffer| > 0 {
          OnReadyRead();
        }
      }
    }

    method Receive(chunk: seq<u8>)
      modifies this
      ensures var (p, out) := Drain(old(Pending(wanted, buffer + chunk)));
        Pending(wanted, buffer) == p && delivered == old(delivered) + out
    {
      buffer := buffer + chunk;
      OnReadyRead();
    }

    method ReceiveAll(chunks: seq<seq<u8>>)
      modifies this
      ensures var (p, out) := DrainAll(old(Pending(wanted, buffer)), chunks);
        Pending(wanted, buffer) == p && delivered == old(delivered) + out
    {
      var i := 0;
      assert chunks[0..] == chunks;
      while i < |chunks|
        invariant i <= |chunks|
        invariant var (p, out) := DrainAll(old(Pending(wanted, buffer)), chunks);
          var (q, more) := DrainAll(Pending(wanted, buffer), chunks[i..]);
          q == p && delivered + more == old(delivered) + out
      {
        assert chunks[i..][1..] == chunks[i+1..];
        Receive(chunks[i]);
        i := i + 1;
      }
    }
  }

  lemma DrainUnfolds(p: Pending)
    ensures var q := ReadSize(p);
      if 0 < q.wanted <= |q.buffer| then
        var body, next := q.buffer[..q.wanted], Pending(0, q.buffer[q.wanted..]);
        if next.buffer == [] then Drain(p) == (next, [body]) else Drain(p) == (Drain(next).0, [body] + Drain(next).1)
      else Drain(p) == (q, [])
  {
    hide Signed;
  }

  /** A whole connection: one readyRead per chunk. */
  function DrainAll(p: Pending, chunks: seq<seq<u8>>): (Pending, seq<Body>)
    decreases |chunks|
  {
    if chunks == [] then (p, [])
    else
      var (q, out) := Drain(p.(buffer := p.buffer + chunks[0]));
      var (r, more) := DrainAll(q, chunks[1..]);
      (r, out + more)
  }

  // ----- round trip -----

  lemma SizeReadsBack(n: nat, rest: seq<u8>)
    requires n < MAX_BODY
    ensures |Le32(n)| == 4 && Signed(Le32(n) + rest) == n && (Le32(n) + rest)[4..] == rest
  {
    Le32Back(n, rest);
  }

  /** A size of two gigabytes or more reads as a negative one: it is dropped, and what is
      behind it stays in the buffer. */
  lemma NegativeSize(n: nat, rest: seq<u8>, wanted: int)
    requires MAX_BODY <= n < 2 * MAX_BODY && wanted <= 0
    ensures Drain(Pending(wanted, Le32(n) + rest)) == (Pending(n - 2 * MAX_BODY, rest), [])
  {
    Le32Back(n, rest);
    DrainUnfolds(Pending(wanted, Le32(n) + rest));
  }

  /** Bytes received but not consumed, followed by those still to come, make up the frames
      in `left`, the first of which may have had its size read. */
  predicate Partway(p: Pending, rest: seq<u8>, left: seq<Body>)
    requires Sendable(left)
  {
    if p.wanted <= 0 then p.buffer + rest == Stream(left)
    else left != [] && p.wanted == |left[0]| && p.buffer + rest == left[0] + Stream(left[1..])
  }

  /** Nothing that could be consumed is left. */
  predicate Settled(p: Pending) {
    if p.wanted <= 0 then |p.buffer| < 4 else |p.buffer| < p.wanted
  }

  predicate NonEmpty(bodies: seq<Body>) { forall b | b in bodies :: b != [] }

  lemma ReadSizePartway(p: Pending, rest: seq<u8>, left: seq<Body>)
    requires Sendable(left) && NonEmpty(left) && Partway(p, rest, left)
    ensures Partway(ReadSize(p), rest, left)
    ensures ReadSize(p).wanted <= 0 ==> |ReadSize(p).buffer| < 4
  {
    if p.wanted <= 0 && |p.buffer| >= 4 {
      assert left != [] && left[0] in left;
      var after := left[0] + Stream(left[1..]);
      SizeReadsBack(|left[0]|, after);
      Assoc(Le32(|left[0]|), left[0], Stream(left[1..]));
      var whole := p.buffer + rest;
      assert whole == Le32(|left[0]|) + after;
      assert whole[4..] == p.buffer[4..] + rest;
      assert forall i | 0 <= i < 4 :: whole[i] == p.buffer[i];
    }
  }

  lemma BodyPartway(q: Pending, rest: seq<u8>, left: seq<Body>)
    requires Sendable(left) && Partway(q, rest, left) && 0 < q.wanted <= |q.buffer|
    ensures left != [] && q.buffer[..q.wanted] == left[0]
    ensures Partway(Pending(0, q.buffer[q.wanted..]), rest, left[1..])
  {
    var whole := q.buffer + rest;
    assert whole[..q.wanted] == q.buffer[..q.wanted];
    assert (left[0] + Stream(left[1..]))[..q.wanted] == left[0];
    assert whole[q.wanted..] == q.buffer[q.wanted..] + rest;
    assert (left[0] + Stream(left[1..]))[q.wanted..] == Stream(left[1..]);
  }

  /** `out` is the bodies complete so far, and `q` the unfinished tail. */
  predicate Exact(q: Pending, out: seq<Body>, rest: seq<u8>, left: seq<Body>)
    requires Sendable(left)
  {
    && |out| <= |left| && out == left[..|out|]
    && Partway(q, rest, left[|out|..]) && Settled(q)
  }

  lemma ExactAfter(n: nat, q: Pending, more: seq<Body>, rest: seq<u8>, left: seq<Body>)
    requires Sendable(left) && NonEmpty(left) && n <= |left|
    ensures Sendable(left[n..]) && NonEmpty(left[n..])
    ensures Exact(q, more, rest, left[n..]) ==> Exact(q, left[..n] + more, rest, left)
  {
    assert forall b | b in left[n..] :: b in left;
    hide Partway, Settled, Sendable, NonEmpty;
    if Exact(q, more, rest, left[n..]) {
      var m := |more|;
      assert n + m <= |left| && more == left[n..][..m];
      DropTwice(left, n, m);
      assert |left[..n] + more| == n + m;
    }
  }

  lemma DropTwice(left: seq<Body>, n: nat, m: nat)
    requires n + m <= |left|
    ensures left[..n] + left[n..][..m] == left[..n+m] && left[n..][m..] == left[n+m..]
  {
  }

  lemma ExactNone(q: Pending, rest: seq<u8>, left: seq<Body>)
    requires Sendable(left) && Partway(q, rest, left) && Settled(q)
    ensures Exact(q, [], rest, left)
  {
    assert left[0..] == left;
  }

  /** However much of the stream has arrived, a slot hands on exactly the next bodies that
      are complete and keeps the unfinished tail. */
  lemma {:induction false} DrainExact(p: Pending, rest: seq<u8>, left: seq<Body>)
    requires Sendable(left) && NonEmpty(left) && Partway(p, rest, left)
    ensures Exact(Drain(p).0, Drain(p).1, rest, left)
    decreases |p.buffer|
  {
    ReadSizePartway(p, rest, left);
    var q := ReadSize(p);
    if 0 < q.wanted <= |q.buffer| {
      BodyPartway(q, rest, left);
      assert |q.buffer| <= |p.buffer|;
      hide Stream, Partway, Exact, ReadSize;
      var next := Pending(0, q.buffer[q.wanted..]);
      assert left[..1] == [left[0]];
      ExactAfter(1, Drain(p).0, Drain(p).1[1..], rest, left);
      if next.buffer != [] {
        DrainExact(next, rest, left[1..]);
      } else {
        ExactNone(next, rest, left[1..]);
      }
    } else {
      ExactNone(q, rest, left);
    }
  }

  lemma Feed(p: Pending, chunks: seq<seq<u8>>, rest: seq<u8>, left: seq<Body>)
    requires Sendable(left) && chunks != [] && Partway(p, Flatten(chunks) + rest, left)
    ensures Partway(p.(buffer := p.buffer + chunks[0]), Flatten(chunks[1..]) + rest, left)
  {
    hide Stream;
    var f := Flatten(chunks[1..]);
    assert Flatten(chunks) == chunks[0] + f;
    hide Flatten;
    Assoc(chunks[0], f, rest);
    Assoc(p.buffer, chunks[0], f + rest);
  }

  lemma ExactParts(q: Pending, out: seq<Body>, rest: seq<u8>, left: seq<Body>)
    requires Sendable(left) && NonEmpty(left) && Exact(q, out, rest, left)
    ensures |out| <= |left| && out == left[..|out|] && Sendable(left[|out|..]) && NonEmpty(left[|out|..])
    ensures Partway(q, rest, left[|out|..]) && Settled(q)
  {
    assert forall b | b in left[|out|..] :: b in left;
  }

  lemma {:induction false} DrainAllExact(p: Pending, chunks: seq<seq<u8>>, rest: seq<u8>, left: seq<Body>)
    requires Sendable(left) && NonEmpty(left) && Settled(p) && Partway(p, Flatten(chunks) + rest, left)
    ensures Exact(DrainAll(p, chunks).0, DrainAll(p, chunks).1, rest, left)
    decreases |chunks|
  {
    hide Partway, Settled, Drain, Exact, Stream;
    if chunks == [] {
      assert [] + rest == rest;
      ExactNone(p, rest, left);
    } else {
      var later := Flatten(chunks[1..]) + rest;
      var fed := p.(buffer := p.buffer + chunks[0]);
      Feed(p, chunks, rest, left);
      DrainExact(fed, later, left);
      var (q, out) := Drain(fed);
      ExactParts(q, out, later, left);
      var (r, more) := DrainAll(q, chunks[1..]);
      ExactAfter(|out|, r, more, rest, left);
      DrainAllExact(q, chunks[1..], rest, left[|out|..]);
    }
  }

  /** Reassembly: however the bytes of framed non-empty bodies are cut into readyRead
      chunks, each receiver hands on exactly those bodies, in order, and keeps nothing. */
  lemma Reassembles(bodies: seq<Body>, chunks: seq<seq<u8>>, wanted: int)
    requires Sendable(bodies) && NonEmpty(bodies) && wanted <= 0 && Flatten(chunks) == Stream(bodies)
    ensures var (p, out) := DrainAll(Pending(wanted, []), chunks);
      out == bodies && p.buffer == [] && p.wanted <= 0
  {
    var start := Pending(wanted, []);
    assert [] + (Flatten(chunks) + []) == Stream(bodies);
    DrainAllExact(start, chunks, [], bodies);
    var (p, out) := DrainAll(start, chunks);
    assert bodies[..|out|] == bodies;
  }

  /** Where the tail starts is settled by how many bytes are still to come. */
  lemma {:induction false} SamePlace(p: Pending, q: Pending, rest: seq<u8>, left: seq<Body>, n: nat)
    requires Sendable(left) && n <= |left|
    requires Partway(p, rest, left) && Settled(p) && Partway(q, rest, left[n..]) && Settled(q)
    ensures n == 0 && p.buffer == q.buffer && (p.wanted == q.wanted || (p.wanted <= 0 && q.wanted <= 0))
  {
    var whole := if p.wanted <= 0 then |Stream(left)| else |Stream(left)| - 4;
    assert |p.buffer| + |rest| == whole;
    if n > 0 {
      TailShorter(left, n);
    } else {
      assert left[0..] == left;
      assert |p.buffer| == |q.buffer|;
      assert p.buffer == (p.buffer + rest)[..|p.buffer|];
      assert q.buffer == (q.buffer + rest)[..|q.buffer|];
    }
  }

  lemma {:induction false} TailShorter(left: seq<Body>, n: nat)
    requires Sendable(left) && 0 < n <= |left|
    ensures |Stream(left[n..])| <= |Stream(left)| - 4 - |left[0]|
  {
    if n == 1 {
    } else {
      TailShorter(left[1..], n - 1);
      assert left[1..][n-1..] == left[n..];
    }
  }

  /** Chunking never matters, not even midway: two cuts of the same bytes leave the same
      bodies handed on, the same unfinished tail and the same size awaited. */
  lemma ChunkingNeverMatters(bodies: seq<Body>, a: seq<seq<u8>>, b: seq<seq<u8>>, rest: seq<u8>, w: int, v: int)
    requires Sendable(bodies) && NonEmpty(bodies) && w <= 0 && v <= 0
    requires Flatten(a) == Flatten(b) && Flatten(a) + rest == Stream(bodies)
    ensures var (p, out) := DrainAll(Pending(w, []), a);
      var (q, more) := DrainAll(Pending(v, []), b);
      && out == more && p.buffer == q.buffer && (p.wanted == q.wanted || (p.wanted <= 0 && q.wanted <= 0))
  {
    assert [] + (Flatten(a) + rest) == Stream(bodies);
    DrainAllExact(Pending(w, []), a, rest, bodies);
    DrainAllExact(Pending(v, []), b, rest, bodies);
    var (p, out) := DrainAll(Pending(w, []), a);
    var (q, more) := DrainAll(Pending(v, []), b);
    hide DrainAll, Stream, Flatten, Exact;
    if |out| <= |more| { SameTail(p, out, q, more, rest, bodies); } else { SameTail(q, more, p, out, rest, bodies); }
  }

  lemma SameTail(p: Pending, out: seq<Body>, q: Pending, more: seq<Body>, rest: seq<u8>, bodies: seq<Body>)
    requires Sendable(bodies) && Exact(p, out, rest, bodies) && Exact(q, more, rest, bodies) && |out| <= |more|
    ensures out == more && p.buffer == q.buffer && (p.wanted == q.wanted || (p.wanted <= 0 && q.wanted <= 0))
  {
    hide Partway, Stream, Settled;
    assert bodies[|out|..][|more|-|out|..] == bodies[|more|..];
    SamePlace(p, q, rest, bodies[|out|..], |more| - |out|);
  }

  // ----- empty bodies -----

  function Empty(): Body -> bool { (b: Body) => b == [] }

  predicate Zeros(z: seq<u8>) { forall b | b in z :: b == 0 }

  /** All that is missing to what was received is in `rest`, then come zero bytes. */
  predicate ThenZeros(p: Pending, rest: seq<u8>, left: seq<Body>, z: seq<u8>)
    requires Sendable(left)
  {
    if p.wanted <= 0 then p.buffer + rest == Stream(left) + z
    else left != [] && p.wanted == |left[0]| && p.buffer + rest == left[0] + Stream(left[1..]) + z
  }

  /** Zero bytes are read as sizes of empty bodies, one a slot; nothing comes of them. */
  lemma DrainZeros(p: Pending)
    requires p.wanted <= 0 && Zeros(p.buffer)
    ensures var (q, out) := Drain(p); out == [] && q.wanted <= 0 && Zeros(q.buffer)
  {
    var b := p.buffer;
    if |b| >= 4 {
      assert b[0] in b && b[1] in b && b[2] in b && b[3] in b;
      assert Signed(b) == 0 && forall x | x in b[4..] :: x in b;
    }
  }

  lemma {:induction false} DrainAllZeros(p: Pending, chunks: seq<seq<u8>>)
    requires p.wanted <= 0 && Zeros(p.buffer) && Zeros(Flatten(chunks))
    ensures DrainAll(p, chunks).1 == []
    decreases |chunks|
  {
    if chunks == [] {
    } else {
      var fed := p.(buffer := p.buffer + chunks[0]);
      assert Flatten(chunks) == chunks[0] + Flatten(chunks[1..]);
      assert forall b | b in chunks[0] || b in Flatten(chunks[1..]) :: b in Flatten(chunks);
      DrainZeros(fed);
      DrainAllZeros(Drain(fed).0, chunks[1..]);
    }
  }

  /** A slot that has all bodies, and zeros behind them, hands on all of them. */
  lemma {:induction false} DrainToZeros(p: Pending, left: seq<Body>, z: seq<u8>)
    requires Sendable(left) && NonEmpty(left) && Partway(p, [], left) && Zeros(z)
    ensures var (q, out) := Drain(p.(buffer := p.buffer + z)); out == left && q.wanted <= 0 && Zeros(q.buffer)
    decreases |left|
  {
    if left == [] {
      assert p.buffer + [] == p.buffer && p.buffer == [] && p.buffer + z == z;
      hide Drain;
      DrainZeros(p.(buffer := p.buffer + z));
    } else {
      hide Drain, Stream, Zeros;
      var next := FirstBody(p, left, z);
      DrainToZeros(next, left[1..], z);
      assert [left[0]] + left[1..] == left;
    }
  }

  lemma FirstBody(p: Pending, left: seq<Body>, z: seq<u8>) returns (next: Pending)
    requires Sendable(left) && left != [] && NonEmpty(left) && Partway(p, [], left)
    ensures Sendable(left[1..]) && NonEmpty(left[1..]) && Partway(next, [], left[1..])
    ensures var after := next.(buffer := next.buffer + z);
      Drain(p.(buffer := p.buffer + z)) == (Drain(after).0, [left[0]] + Drain(after).1)
  {
    assert left[0] in left && forall b | b in left[1..] :: b in left;
    var q := SizeRead(p, left);
    BodyPartway(q, [], left);
    next := Pending(0, q.buffer[q.wanted..]);
    hide Partway, Stream;
    ReadSizeFed(p, z);
    hide ReadSize;
    DrainOne(p.(buffer := p.buffer + z), q, z);
  }

  lemma SizeRead(p: Pending, left: seq<Body>) returns (q: Pending)
    requires Sendable(left) && left != [] && NonEmpty(left) && Partway(p, [], left)
    ensures q == ReadSize(p) && Partway(q, [], left) && 0 < q.wanted <= |q.buffer|
    ensures p.wanted > 0 || |p.buffer| >= 4
  {
    assert left[0] in left;
    assert p.buffer + [] == p.buffer;
    ReadSizePartway(p, [], left);
    q := ReadSize(p);
    hide ReadSize;
    assert q.buffer + [] == q.buffer;
  }

  lemma DrainOne(fed: Pending, q: Pending, z: seq<u8>)
    requires ReadSize(fed) == q.(buffer := q.buffer + z) && 0 < q.wanted <= |q.buffer|
    ensures var after := Pending(0, q.buffer[q.wanted..] + z);
      Drain(fed) == (Drain(after).0, [q.buffer[..q.wanted]] + Drain(after).1)
  {
    hide ReadSize, Drain;
    assert (q.buffer + z)[..q.wanted] == q.buffer[..q.wanted];
    assert (q.buffer + z)[q.wanted..] == q.buffer[q.wanted..] + z;
    DrainUnfolds(fed);
    DrainNothing();
    assert [q.buffer[..q.wanted]] + [] == [q.buffer[..q.wanted]];
  }

  lemma DrainNothing()
    ensures Drain(Pending(0, [])) == (Pending(0, []), [])
  {
  }

  lemma ReadSizeFed(p: Pending, z: seq<u8>)
    requires p.wanted > 0 || |p.buffer| >= 4
    ensures ReadSize(p.(buffer := p.buffer + z)) == ReadSize(p).(buffer := ReadSize(p).buffer + z)
  {
    var b := p.buffer;
    if p.wanted <= 0 {
      assert (b + z)[4..] == b[4..] + z;
      assert forall i | 0 <= i < 4 :: (b + z)[i] == b[i];
    }
  }

  /** Two ways to cut one sequence. */
  lemma Overlap(a: seq<u8>, b: seq<u8>, c: seq<u8>, d: seq<u8>)
    requires a + b == c + d && |b| >= |d|
    ensures b == b[..|b|-|d|] + d && a + b[..|b|-|d|] == c
  {
    var whole := a + b;
    assert whole[|c|..] == d && whole[..|c|] == c;
    assert b[|b|-|d|..] == whole[|c|..];
    assert a + b[..|b|-|d|] == whole[..|c|];
  }

  lemma BeforeZeros(p: Pending, later: seq<u8>, left: seq<Body>, z: seq<u8>) returns (rest: seq<u8>)
    requires Sendable(left) && ThenZeros(p, later, left, z) && |later| >= |z|
    ensures later == rest + z && Partway(p, rest, left)
  {
    rest := later[..|later|-|z|];
    Overlap(p.buffer, later, if p.wanted <= 0 then Stream(left) else left[0] + Stream(left[1..]), z);
  }

  lemma PastBodies(p: Pending, later: seq<u8>, left: seq<Body>, z: seq<u8>) returns (all: seq<u8>, over: seq<u8>)
    requires Sendable(left) && ThenZeros(p, later, left, z) && |later| <= |z| && Zeros(z)
    ensures p.buffer == all + over && Zeros(over) && Zeros(later) && Partway(p.(buffer := all), [], left)
  {
    var bodies := if p.wanted <= 0 then Stream(left) else left[0] + Stream(left[1..]);
    Overlap(bodies, z, p.buffer, later);
    all, over := bodies, z[..|z|-|later|];
    assert forall b | b in over || b in later :: b in z;
    assert all + [] == all;
  }

  lemma StillThenZeros(p: Pending, rest: seq<u8>, left: seq<Body>, z: seq<u8>)
    requires Sendable(left) && Partway(p, rest, left)
    ensures ThenZeros(p, rest + z, left, z)
  {
    Assoc(p.buffer, rest, z);
  }

  /** Non-empty bodies with zero bytes behind them come through every cut. */
  lemma {:induction false} DeliversThenZeros(p: Pending, chunks: seq<seq<u8>>, left: seq<Body>, z: seq<u8>)
    requires Sendable(left) && NonEmpty(left) && Settled(p) && Zeros(z) && ThenZeros(p, Flatten(chunks), left, z)
    ensures DrainAll(p, chunks).1 == left
    decreases |chunks|
  {
    if chunks == [] {
      SettledAtEnd(p, left, z);
    } else {
      var fed, later := p.(buffer := p.buffer + chunks[0]), Flatten(chunks[1..]);
      Assoc(p.buffer, chunks[0], later);
      assert ThenZeros(fed, later, left, z);
      hide Drain, Settled, ThenZeros, Stream, Partway, Zeros;
      var (q, out) := Drain(fed);
      if |later| >= |z| {
        var rest := BeforeZeros(fed, later, left, z);
        DrainExact(fed, rest, left);
        ExactParts(q, out, rest, left);
        StillThenZeros(q, rest, left[|out|..], z);
        DeliversThenZeros(q, chunks[1..], left[|out|..], z);
        assert left[..|out|] + left[|out|..] == left;
      } else {
        var all, over := PastBodies(fed, later, left, z);
        DrainToZeros(fed.(buffer := all), left, over);
        DrainAllZeros(q, chunks[1..]);
        assert left + [] == left;
      }
    }
  }

  lemma SettledAtEnd(p: Pending, left: seq<Body>, z: seq<u8>)
    requires Sendable(left) && NonEmpty(left) && Settled(p) && ThenZeros(p, [], left, z)
    ensures left == []
  {
    assert p.buffer + [] == p.buffer;
  }

  lemma SendableParts(a: seq<Body>, b: seq<Body>)
    requires Sendable(a + b)
    ensures Sendable(a) && Sendable(b) && (a != [] ==> Sendable(a[1..] + b))
  {
    forall x | x in a || x in b ensures |x| < MAX_BODY { assert x in a + b; }
    if a != [] { forall x | x in a[1..] + b ensures |x| < MAX_BODY { assert x in a + b; } }
  }

  lemma {:induction false} StreamAppend(a: seq<Body>, b: seq<Body>)
    requires Sendable(a + b)
    ensures Sendable(a) && Sendable(b) && Stream(a + b) == Stream(a) + Stream(b)
  {
    SendableParts(a, b);
    hide Sendable, Frame;
    if a == [] {
      assert a + b == b;
    } else {
      assert (a + b)[1..] == a[1..] + b && (a + b)[0] == a[0];
      StreamAppend(a[1..], b);
      Assoc(Frame(a[0]), Stream(a[1..]), Stream(b));
    }
  }

  lemma {:induction false} EmptyZeros(bodies: seq<Body>)
    requires forall b | b in bodies :: b == []
    ensures Sendable(bodies) && Zeros(Stream(bodies))
  {
    if bodies == [] {
    } else {
      assert bodies[0] in bodies && forall b | b in bodies[1..] :: b in bodies;
      EmptyZeros(bodies[1..]);
    }
  }

  /** An empty body ends the slot its size is read in: what is behind it stays in the
      buffer, complete bodies included. */
  lemma {:induction false} StopsAtEmpty(front: seq<Body>, back: seq<Body>, wanted: int)
    requires Sendable(front + [[]] + back) && Sendable(back) && NonEmpty(front) && wanted <= 0
    ensures Drain(Pending(wanted, Stream(front + [[]] + back))) == (Pending(0, Stream(back)), front)
    decreases |front|
  {
    hide Drain, Stream, Sendable, NonEmpty, Frame;
    if front == [] {
      EmptyFirst(front, back, wanted);
    } else {
      FrontThen(front, back);
      DrainFrame(front[0], Stream(front[1..] + [[]] + back), wanted);
      StopsAtEmpty(front[1..], back, 0);
    }
  }

  lemma EmptyFirst(front: seq<Body>, back: seq<Body>, wanted: int)
    requires front == [] && Sendable(front + [[]] + back) && Sendable(back) && wanted <= 0
    ensures Drain(Pending(wanted, Stream(front + [[]] + back))) == (Pending(0, Stream(back)), front)
  {
    assert front + [[]] + back == [[]] + back && ([[]] + back)[1..] == back;
    hide Drain;
    DrainFrame([], Stream(back), wanted);
  }

  lemma FrontThen(front: seq<Body>, back: seq<Body>)
    requires front != [] && NonEmpty(front) && Sendable(front + [[]] + back)
    ensures [front[0]] + front[1..] == front
    ensures var rest := front[1..] + [[]] + back;
      && Sendable(rest) && NonEmpty(front[1..]) && front[0] != [] && |front[0]| < MAX_BODY && Stream(rest) != []
      && Stream(front + [[]] + back) == Frame(front[0]) + Stream(rest)
  {
    var rest := front[1..] + [[]] + back;
    assert front + [[]] + back == [front[0]] + rest && ([front[0]] + rest)[1..] == rest;
    assert front[0] in front && forall b | b in front[1..] :: b in front;
    assert forall b | b in rest || b == front[0] :: b in [front[0]] + rest;
    assert rest != [] && |Stream(rest)| > 0;
  }

  lemma DrainFrame(b: Body, rest: seq<u8>, wanted: int)
    requires |b| < MAX_BODY && wanted <= 0 && (b != [] ==> rest != [])
    ensures Drain(Pending(wanted, Frame(b) + rest)) ==
      if b == [] then (Pending(0, rest), []) else (Drain(Pending(0, rest)).0, [b] + Drain(Pending(0, rest)).1)
  {
    SizeReadsBack(|b|, b + rest);
    Assoc(Le32(|b|), b, rest);
    DrainUnfolds(Pending(wanted, Frame(b) + rest));
    hide Drain, Signed, Le32;
    assert (b + rest)[..|b|] == b && (b + rest)[|b|..] == rest;
    assert [] + rest == rest;
  }

  lemma FlattenOne(s: seq<u8>)
    ensures Flatten([s]) == s && [] + s == s
  {
  }

  /** In one chunk, bodies come through up to the first empty one. */
  lemma OneChunk(bodies: seq<Body>, wanted: int)
    requires Sendable(bodies) && wanted <= 0
    ensures Flatten([Stream(bodies)]) == Stream(bodies)
    ensures DrainAll(Pending(wanted, []), [Stream(bodies)]).1 == bodies[..Before(bodies, Empty())]
  {
    hide Stream, Drain, DrainAll, Flatten, Sendable, Before;
    var k := Before(bodies, Empty());
    var s := Stream(bodies);
    FlattenOne(s);
    AloneChunk(Pending(wanted, []), s);
    if k == |bodies| {
      assert bodies[..k] == bodies;
      Reassembles(bodies, [s], wanted);
    } else {
      UpToEmpty(bodies, k, wanted);
    }
  }

  lemma UpToEmpty(bodies: seq<Body>, k: nat, wanted: int)
    requires Sendable(bodies) && k < |bodies| && NonEmpty(bodies[..k]) && bodies[k] == [] && wanted <= 0
    ensures Drain(Pending(wanted, Stream(bodies))).1 == bodies[..k]
  {
    hide Stream, Drain;
    CutAtEmpty(bodies, k);
    StopsAtEmpty(bodies[..k], bodies[k+1..], wanted);
  }

  lemma CutAtEmpty(bodies: seq<Body>, k: nat)
    requires Sendable(bodies) && k < |bodies| && bodies[k] == []
    ensures bodies[..k] + [[]] + bodies[k+1..] == bodies && Sendable(bodies[k+1..])
  {
    assert forall b | b in bodies[k+1..] :: b in bodies;
  }

  lemma AloneChunk(p: Pending, chunk: seq<u8>)
    ensures DrainAll(p, [chunk]) == Drain(p.(buffer := p.buffer + chunk))
  {
    hide Drain;
    var (q, out) := Drain(p.(buffer := p.buffer + chunk));
    assert [chunk][1..] == [] && out + [] == out;
  }

  /** The non-empty bodies are all handed on, whatever the cut, exactly when no empty body
      is sent before one of them. */
  lemma ReassemblesIff(bodies: seq<Body>, wanted: int)
    requires Sendable(bodies) && wanted <= 0
    ensures (forall chunks: seq<seq<u8>> | Flatten(chunks) == Stream(bodies) ::
               DrainAll(Pending(wanted, []), chunks).1 == Filter(bodies, Not(Empty())))
       <==> ComeLast(bodies, Empty())
  {
    var k := Before(bodies, Empty());
    FilterBefore(bodies, Empty());
    OneChunk(bodies, wanted);
    if ComeLast(bodies, Empty()) {
      assert bodies == bodies[..k] + bodies[k..];
      StreamAppend(bodies[..k], bodies[k..]);
      EmptyZeros(bodies[k..]);
      hide DrainAll, Stream;
      forall chunks: seq<seq<u8>> | Flatten(chunks) == Stream(bodies)
        ensures DrainAll(Pending(wanted, []), chunks).1 == Filter(bodies, Not(Empty()))
      {
        assert [] + Flatten(chunks) == Flatten(chunks);
        DeliversThenZeros(Pending(wanted, []), chunks, bodies[..k], Stream(bodies[k..]));
      }
    }
  }
}
