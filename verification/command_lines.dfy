/** CRLF-terminated commands over the service's control socket, in qtservice_unix.cpp. */
module CommandLines {
  import opened Seqs
  import opened TrxData

  const CRLF: string := "\r\n"

  predicate CrLfAt(s: string, i: int) {
    0 <= i < |s| - 1 && s[i] == '\r' && s[i+1] == '\n'
  }

  /** QString::indexOf("\r\n"). */
  method IndexOfCrLf(s: string) returns (pos: int)
    ensures if pos < 0 then forall i :: !CrLfAt(s, i) else CrLfAt(s, pos) && forall i | i < pos :: !CrLfAt(s, i)
    ensures pos == FirstCrLf(s, 0)
  {
    var i := 0;
    while i < |s|
      invariant i <= |s| && (forall j | j < i :: !CrLfAt(s, j)) && FirstCrLf(s, 0) == FirstCrLf(s, i)
    {
      if i + 1 < |s| && s[i] == '\r' && s[i+1] == '\n' { return i; }
      i := i + 1;
    }
    return -1;
  }

  function FirstCrLf(s: string, i: nat): (pos: int)
    requires i <= |s|
    ensures pos < |s| - 1 || pos == -1
    ensures pos >= 0 ==> CrLfAt(s, pos)
    ensures forall j | i <= j && (pos < 0 || j < pos) :: !CrLfAt(s, j)
    decreases |s| - i
  {
    if i == |s| then -1 else if CrLfAt(s, i) then i else FirstCrLf(s, i + 1)
  }

  /** What the service may do; the rest of its configuration plays no part here. */
  datatype Flags = Flags(canStop: bool, canSuspend: bool)

  /** Whether a command is obeyed. */
  function Obeyed(f: Flags, cmd: string): bool {
    || (cmd == "terminate" && f.canStop)
    || ((cmd == "pause" || cmd == "resume") && f.canSuspend)
    || cmd == "alive"
    || (|cmd| > 4 && cmd[..4] == "num:")
  }

  function Reply(f: Flags): string -> string {
    (cmd: string) => if Obeyed(f, cmd) then "true" else "false"
  }

  /** One readyRead: the loop ends at an unfinished or an empty command. */
  function Split(cache: string): (string, seq<string>)
    decreases |cache|
  {
    var pos := FirstCrLf(cache, 0);
    if pos < 0 then (cache, [])
    else if pos == 0 then (cache[2..], [])
    else
      var (rest, more) := Split(cache[pos+2..]);
      (rest, [cache[..pos]] + more)
  }

  function SplitAll(cache: string, chunks: seq<string>): (string, seq<string>)
    decreases |chunks|
  {
    if chunks == [] then (cache, [])
    else
      var (rest, cmds) := Split(cache + chunks[0]);
      var (last, more) := SplitAll(rest, chunks[1..]);
      (last, cmds + more)
  }

  /** QString(s->readAll()): up to the first NUL, each byte a character. */
  function Text(chunk: seq<u8>): string {
    if chunk == [] || chunk[0] == 0 then "" else [chunk[0] as char] + Text(chunk[1..])
  }

  function Texts(): seq<u8> -> string { (chunk: seq<u8>) => Text(chunk) }

  class Service {
    const flags: Flags
    var cache: string
    var run: seq<string>
    var replies: seq<string>

    constructor (f: Flags)
      ensures flags == f && cache == "" && run == [] && replies == []
    {
      flags, cache, run, replies := f, "", [], [];
    }

    method GetCommand() returns (cmd: string)
      modifies `cache
      ensures (cmd, cache) == Taken(old(cache)) && (cmd != "" ==> |cache| + 2 + |cmd| == |old(cache)|)
    {
      var pos := IndexOfCrLf(cache);
      if pos < 0 { return ""; }
      cmd := cache[..pos];
      cache := cache[pos+2..];
    }

    /** The command is run and answered, "true" when it is obeyed: `alive` and numbered
        commands always are, `terminate` unless the service cannot be stopped, `pause` and
        `resume` if it can be suspended, anything else never. */
    method Execute(cmd: string)
      modifies `run, `replies
      ensures run == old(run) + [cmd] && replies == old(replies) + [Reply(flags)(cmd)]
      ensures cmd == "alive" ==> replies == old(replies) + ["true"]
      ensures cmd == "terminate" ==> replies == old(replies) + [if flags.canStop then "true" else "false"]
      ensures cmd == "pause" || cmd == "resume" ==>
        replies == old(replies) + [if flags.canSuspend then "true" else "false"]
      ensures |cmd| > 4 && cmd[..4] == "num:" ==> replies == old(replies) + ["true"]
      ensures cmd !in {"alive", "terminate", "pause", "resume"} && !(|cmd| > 4 && cmd[..4] == "num:") ==>
        replies == old(replies) + ["false"]
    {
      var retValue := false;
      if cmd == "terminate" {
        if flags.canStop { retValue := true; }
      } else if cmd == "pause" || cmd == "resume" {
        if flags.canSuspend { retValue := true; }
      } else if cmd == "alive" {
        retValue := true;
      } else if |cmd| > 4 && cmd[..4] == "num:" {
        retValue := true;
      }
      var retString := if retValue then "true" else "false";
      assert |cmd| > 4 ==> cmd[..4][0] == cmd[0];
      assert Reply(flags)(cmd) == retString;
      run := run + [cmd];
      replies := replies + [retString];
    }

    /** The slot: each complete command is run and answered once, in order. */
    method SlotReady(chunk: seq<u8>)
      modifies `cache, `run, `replies
      ensures var (rest, cmds) := Split(old(cache) + Text(chunk));
        && cache == rest && run == old(run) + cmds
        && replies == old(replies) + Map(cmds, Reply(flags))
    {
      hide Split, FirstCrLf, Map;
      cache := cache + Text(chunk);
      ghost var done: seq<string> := [];
      ghost var whole := cache;
      SplitStarts(whole, Reply(flags));
      var cmd := GetCommand();
      while cmd != ""
        invariant run == old(run) + done && replies == old(replies) + Map(done, Reply(flags))
        invariant SplitSoFar(whole, done, cmd, cache)
        decreases |cache| + |cmd|
      {
        SplitGoesOn(whole, done, cmd, cache, Reply(flags));
        Execute(cmd);
        done := done + [cmd];
        cmd := GetCommand();
      }
    }

    /** A connection: one slot per chunk. */
    method ServeSocket(chunks: seq<seq<u8>>)
      modifies `cache, `run, `replies
      ensures var (rest, cmds) := SplitAll(old(cache), Map(chunks, Texts()));
        && cache == rest && run == old(run) + cmds
        && replies == old(replies) + Map(cmds, Reply(flags))
    {
      hide Split, SplitAll, Map;
      var i := 0;
      ghost var done: seq<string> := [];
      ghost var texts := Map(chunks, Texts());
      MapIndex(chunks, Texts());
      assert Map<string, string>([], Reply(flags)) == [] by { MapEmpty(Reply(flags)); }
      assert texts[0..] == texts && forall s: seq<string> :: [] + s == s;
      while i < |chunks|
        invariant i <= |chunks| && run == old(run) + done && replies == old(replies) + Map(done, Reply(flags))
        invariant SplitAll(old(cache), texts) ==
          (SplitAll(cache, texts[i..]).0, done + SplitAll(cache, texts[i..]).1)
      {
        ServeNext(cache, texts, i, done, Reply(flags));
        done := done + Split(cache + texts[i]).1;
        SlotReady(chunks[i]);
        i := i + 1;
      }
      ServeDone(cache, texts[i..], done);
    }
  }

  lemma MapEmpty(f: string -> string)
    ensures Map([], f) == []
  {
  }

  lemma ServeNext(cache: string, chunks: seq<string>, i: nat, done: seq<string>, f: string -> string)
    requires i < |chunks|
    ensures var (rest, cmds) := Split(cache + chunks[i]);
      && SplitAll(cache, chunks[i..]).0 == SplitAll(rest, chunks[i+1..]).0
      && done + SplitAll(cache, chunks[i..]).1 == done + cmds + SplitAll(rest, chunks[i+1..]).1
      && Map(done + cmds, f) == Map(done, f) + Map(cmds, f)
  {
    var (rest, cmds) := Split(cache + chunks[i]);
    assert chunks[i..][1..] == chunks[i+1..];
    Assoc(done, cmds, SplitAll(rest, chunks[i+1..]).1);
    MapAppend(done, cmds, f);
  }

  lemma ServeDone(cache: string, chunks: seq<string>, done: seq<string>)
    requires chunks == []
    ensures SplitAll(cache, chunks) == (cache, []) && done + SplitAll(cache, chunks).1 == done
  {
  }

  /** The loop has run `done` and holds `cmd`, with `cache` still unread. */
  ghost predicate SplitSoFar(whole: string, done: seq<string>, cmd: string, cache: string) {
    if cmd == "" then Split(whole) == (cache, done)
    else Split(whole).0 == Split(cache).0 && Split(whole).1 == done + [cmd] + Split(cache).1
  }

  /** What getCommand leaves, and returns. */
  function Taken(cache: string): (string, string) {
    var pos := FirstCrLf(cache, 0);
    if pos < 0 then ("", cache) else (cache[..pos], cache[pos+2..])
  }

  lemma SplitStarts(whole: string, f: string -> string)
    ensures SplitSoFar(whole, [], Taken(whole).0, Taken(whole).1) && Map([], f) == []
  {
    SplitNext(whole);
    var (cmd, rest) := Taken(whole);
    assert [] + [cmd] == [cmd];
  }

  lemma SplitGoesOn(whole: string, done: seq<string>, cmd: string, cache: string, f: string -> string)
    requires cmd != "" && SplitSoFar(whole, done, cmd, cache)
    ensures SplitSoFar(whole, done + [cmd], Taken(cache).0, Taken(cache).1)
    ensures Map(done + [cmd], f) == Map(done, f) + [f(cmd)]
  {
    SplitNext(cache);
    var (next, rest) := Taken(cache);
    Assoc(done + [cmd], [next], Split(rest).1);
    assert done + [cmd] + [] == done + [cmd];
    MapAppend(done, [cmd], f);
    assert Map([cmd], f) == [f(cmd)];
  }

  lemma SplitNext(cache: string)
    ensures var pos := FirstCrLf(cache, 0);
      Split(cache) ==
        if pos < 0 then (cache, [])
        else if pos == 0 then (cache[2..], [])
        else (Split(cache[pos+2..]).0, [cache[..pos]] + Split(cache[pos+2..]).1)
  {
  }

  // ----- a stream of commands -----

  ghost predicate Complete(cmd: string) { cmd != "" && forall i :: !CrLfAt(cmd, i) }

  ghost predicate AllComplete(cmds: seq<string>) { forall c | c in cmds :: Complete(c) }

  function Lines(cmds: seq<string>): string {
    if cmds == [] then "" else cmds[0] + CRLF + Lines(cmds[1..])
  }

  /** The end of the first line is the end of its command, whatever follows. */
  lemma FirstOfLine(cmd: string, more: string)
    requires forall i :: !CrLfAt(cmd, i)
    ensures FirstCrLf(cmd + CRLF + more, 0) == |cmd|
  {
    var s := cmd + CRLF + more;
    assert CrLfAt(s, |cmd|);
    forall i | i < |cmd| ensures !CrLfAt(s, i) {
      if 0 <= i < |cmd| - 1 { assert !CrLfAt(cmd, i); }
    }
  }

  /** Searching a longer string finds the same end of line first. */
  lemma FirstStays(s: string, more: string)
    requires FirstCrLf(s, 0) >= 0
    ensures FirstCrLf(s + more, 0) == FirstCrLf(s, 0)
  {
    var p := FirstCrLf(s, 0);
    assert CrLfAt(s + more, p);
    forall i | i < p ensures !CrLfAt(s + more, i) {
      if 0 <= i { assert !CrLfAt(s, i); }
    }
    var q := FirstCrLf(s + more, 0);
    assert q == p;
  }

  /** What has been cached, and what is to come, is the lines still to run and an
      unfinished end. */
  predicate Ahead(cache: string, rest: string, left: seq<string>, tail: string) {
    cache + rest == Lines(left) + tail
  }

  /** Blank lines, and an unfinished end: a slot finds nothing to run in it. */
  predicate Inert(tail: string)
    decreases |tail|
  {
    FirstCrLf(tail, 0) < 0 || (FirstCrLf(tail, 0) == 0 && Inert(tail[2..]))
  }

  /** Nothing can be run until more comes. */
  predicate Waiting(cache: string, left: seq<string>) { left == [] || FirstCrLf(cache, 0) < 0 }

  /** A slot runs just the commands whose line end has come, even if the LF came alone,
      and keeps the unfinished rest. */
  lemma {:induction false} SplitExact(cache: string, rest: string, left: seq<string>, tail: string)
    returns (tail': string)
    requires AllComplete(left) && Inert(tail) && Ahead(cache, rest, left, tail)
    ensures var (c, out) := Split(cache);
      && |out| <= |left| && out == left[..|out|]
      && Ahead(c, rest, left[|out|..], tail') && Waiting(c, left[|out|..])
    ensures Inert(tail') && (FirstCrLf(tail, 0) < 0 ==> tail' == tail)
    decreases |cache|
  {
    hide Split, FirstCrLf, Lines;
    var pos := FirstCrLf(cache, 0);
    SplitNext(cache);
    if pos < 0 {
      assert left[0..] == left;
      tail' := tail;
    } else if left == [] {
      FirstStays(cache, rest);
      tail' := BlankLine(cache, rest, tail);
    } else {
      FirstStays(cache, rest);
      FirstLine(cache, rest, left, tail);
      var after := cache[pos+2..];
      tail' := SplitExact(after, rest, left[1..], tail);
      var (c, out) := Split(after);
      assert [left[0]] + left[1..][..|out|] == left[..|out|+1];
      assert left[1..][|out|..] == left[|out|+1..];
    }
  }

  lemma BlankLine(cache: string, rest: string, tail: string) returns (tail': string)
    requires Inert(tail) && Ahead(cache, rest, [], tail)
    requires FirstCrLf(cache, 0) >= 0 && FirstCrLf(cache + rest, 0) == FirstCrLf(cache, 0)
    ensures FirstCrLf(tail, 0) == FirstCrLf(cache, 0) == 0
    ensures Inert(tail') && Ahead(cache[2..], rest, [], tail')
  {
    assert "" + tail == tail;
    tail' := tail[2..];
    assert (cache + rest)[2..] == cache[2..] + rest && "" + tail' == tail';
  }

  lemma FirstLine(cache: string, rest: string, left: seq<string>, tail: string)
    requires AllComplete(left) && left != [] && Ahead(cache, rest, left, tail)
    requires FirstCrLf(cache, 0) >= 0 && FirstCrLf(cache + rest, 0) == FirstCrLf(cache, 0)
    ensures FirstCrLf(cache, 0) == |left[0]| > 0 && cache[..|left[0]|] == left[0]
    ensures AllComplete(left[1..]) && Ahead(cache[|left[0]|+2..], rest, left[1..], tail)
  {
    hide FirstCrLf, CrLfAt;
    assert left[0] in left && Complete(left[0]);
    assert forall c | c in left[1..] :: c in left;
    var more := Lines(left[1..]) + tail;
    Assoc(left[0] + CRLF, Lines(left[1..]), tail);
    FirstOfLine(left[0], more);
    hide Lines, Complete;
    CutLine(cache, rest, left[0], more);
  }

  lemma CutLine(cache: string, rest: string, cmd: string, more: string)
    requires cache + rest == cmd + CRLF + more && |cmd| + 2 <= |cache|
    ensures cache[..|cmd|] == cmd && cache[|cmd|+2..] + rest == more
  {
    var whole := cache + rest;
    assert cache[..|cmd|] == whole[..|cmd|];
    assert whole[|cmd|+2..] == cache[|cmd|+2..] + rest;
    assert whole[|cmd|+2..] == more;
  }

  lemma {:induction false} SplitAllExact(cache: string, chunks: seq<string>, rest: string, left: seq<string>,
      tail: string)
    returns (tail': string)
    requires AllComplete(left) && Inert(tail) && Waiting(cache, left)
    requires Ahead(cache, Flatten(chunks) + rest, left, tail)
    ensures var (c, out) := SplitAll(cache, chunks);
      && |out| <= |left| && out == left[..|out|]
      && Ahead(c, rest, left[|out|..], tail') && Waiting(c, left[|out|..])
    ensures Inert(tail') && (FirstCrLf(tail, 0) < 0 ==> tail' == tail)
    decreases |chunks|
  {
    if chunks == [] {
      assert left[0..] == left;
      assert "" + rest == rest;
      tail' := tail;
    } else {
      var later := Flatten(chunks[1..]) + rest;
      assert cache + (Flatten(chunks) + rest) == cache + chunks[0] + later;
      hide Split, FirstCrLf, Lines, Inert, Waiting;
      tail' := SplitExact(cache + chunks[0], later, left, tail);
      var (c, cmds) := Split(cache + chunks[0]);
      RestComplete(left, |cmds|);
      tail' := SplitAllExact(c, chunks[1..], rest, left[|cmds|..], tail');
      var (last, more) := SplitAll(c, chunks[1..]);
      assert left[..|cmds|] + left[|cmds|..][..|more|] == left[..|cmds|+|more|];
      assert left[|cmds|..][|more|..] == left[|cmds|+|more|..];
    }
  }

  lemma RestComplete(left: seq<string>, n: nat)
    requires AllComplete(left) && n <= |left|
    ensures AllComplete(left[n..])
  {
    assert forall s | s in left[n..] :: s in left;
  }

  lemma NothingButTail(c: string, left: seq<string>, tail: string)
    requires AllComplete(left) && Waiting(c, left) && Ahead(c, "", left, tail)
    ensures left == [] && c == tail
  {
    assert c + "" == c && "" + tail == tail;
    if left != [] {
      assert left[0] in left && Complete(left[0]);
      assert c == left[0] + CRLF + (Lines(left[1..]) + tail);
      FirstOfLine(left[0], Lines(left[1..]) + tail);
    }
  }

  /** Commands followed by blank lines and an unfinished end: every cut runs each command. */
  lemma RunsThenInert(cmds: seq<string>, tail: string, chunks: seq<string>)
    requires AllComplete(cmds) && Inert(tail) && Flatten(chunks) == Lines(cmds) + tail
    ensures SplitAll("", chunks).1 == cmds && (FirstCrLf(tail, 0) < 0 ==> SplitAll("", chunks).0 == tail)
  {
    assert "" + (Flatten(chunks) + "") == Lines(cmds) + tail;
    var tail' := SplitAllExact("", chunks, "", cmds, tail);
    var (c, out) := SplitAll("", chunks);
    assert forall s | s in cmds[|out|..] :: s in cmds;
    NothingButTail(c, cmds[|out|..], tail');
    assert cmds[..|out|] == cmds;
  }

  lemma RunsText(cmds: seq<string>, tail: string, chunks: seq<string>)
    requires AllComplete(cmds) && FirstCrLf(tail, 0) < 0 && Flatten(chunks) == Lines(cmds) + tail
    ensures SplitAll("", chunks) == (tail, cmds)
  {
    RunsThenInert(cmds, tail, chunks);
  }

  // ----- blank lines -----

  function Blank(): string -> bool { (c: string) => c == "" }

  lemma {:induction false} LinesAppend(a: seq<string>, b: seq<string>)
    ensures Lines(a + b) == Lines(a) + Lines(b)
  {
    if a == [] {
      assert a + b == b;
    } else {
      LinesAppend(a[1..], b);
      assert (a + b)[1..] == a[1..] + b && (a + b)[0] == a[0];
      Assoc(a[0] + CRLF, Lines(a[1..]), Lines(b));
    }
  }

  lemma {:induction false} BlanksInert(blanks: seq<string>)
    requires forall c | c in blanks :: c == ""
    ensures Inert(Lines(blanks))
  {
    if blanks == [] {
    } else {
      assert forall c | c in blanks[1..] :: c in blanks;
      assert blanks[0] in blanks;
      BlanksInert(blanks[1..]);
      var more := Lines(blanks[1..]);
      FirstOfLine("", more);
      assert Lines(blanks) == "" + CRLF + more;
      assert Lines(blanks)[2..] == more;
    }
  }

  /** A blank line ends the slot it is met in: what is behind it stays unrun in the cache,
      complete commands included. */
  lemma {:induction false} StopsAtBlank(front: seq<string>, back: seq<string>)
    requires AllComplete(front)
    ensures Split(Lines(front + [""] + back)) == (Lines(back), front)
    decreases |front|
  {
    if front == [] {
      assert front + [""] + back == [""] + back && ([""] + back)[1..] == back;
      SplitLine("", Lines(back));
    } else {
      var rest := front[1..] + [""] + back;
      assert front + [""] + back == [front[0]] + rest && ([front[0]] + rest)[1..] == rest;
      assert front[0] in front && Complete(front[0]) && forall c | c in front[1..] :: c in front;
      SplitLine(front[0], Lines(rest));
      StopsAtBlank(front[1..], back);
      assert [front[0]] + front[1..] == front;
    }
  }

  lemma SplitLine(cmd: string, more: string)
    requires forall i :: !CrLfAt(cmd, i)
    ensures Split(cmd + CRLF + more) == if cmd == "" then (more, []) else (Split(more).0, [cmd] + Split(more).1)
  {
    var s := cmd + CRLF + more;
    FirstOfLine(cmd, more);
    assert s[..|cmd|] == cmd && s[|cmd|+2..] == more;
    SplitNext(s);
    hide Split, FirstCrLf, CrLfAt;
  }

  /** Sent in one chunk, commands are run up to the first blank one. */
  lemma OneChunk(cmds: seq<string>)
    requires forall c | c in cmds :: FirstCrLf(c, 0) < 0
    ensures Flatten([Lines(cmds)]) == Lines(cmds)
    ensures SplitAll("", [Lines(cmds)]).1 == cmds[..Before(cmds, Blank())]
  {
    var k := Before(cmds, Blank());
    var chunks := [Lines(cmds)];
    assert chunks[1..] == [] && "" + Lines(cmds) == Lines(cmds);
    FrontComplete(cmds, k);
    if k == |cmds| {
      assert cmds[..k] == cmds && Lines(cmds) + "" == Lines(cmds);
      RunsText(cmds, "", chunks);
    } else {
      assert cmds == cmds[..k] + [""] + cmds[k+1..];
      StopsAtBlank(cmds[..k], cmds[k+1..]);
      assert cmds[..k] + [] == cmds[..k];
    }
  }

  lemma FrontComplete(cmds: seq<string>, k: nat)
    requires k <= |cmds| && (forall c | c in cmds :: FirstCrLf(c, 0) < 0) && "" !in cmds[..k]
    ensures AllComplete(cmds[..k])
  {
    forall c | c in cmds[..k] ensures Complete(c) {
      assert c in cmds;
      forall i ensures !CrLfAt(c, i) {}
    }
  }

  lemma RunsTextIff(cmds: seq<string>)
    requires forall c | c in cmds :: FirstCrLf(c, 0) < 0
    ensures ComeLast(cmds, Blank()) ==>
      forall chunks: seq<string> | Flatten(chunks) == Lines(cmds) ::
        SplitAll("", chunks).1 == Filter(cmds, Not(Blank()))
    ensures !ComeLast(cmds, Blank()) ==> SplitAll("", [Lines(cmds)]).1 != Filter(cmds, Not(Blank()))
  {
    var k := Before(cmds, Blank());
    FilterBefore(cmds, Blank());
    OneChunk(cmds);
    if ComeLast(cmds, Blank()) {
      assert cmds == cmds[..k] + cmds[k..];
      LinesAppend(cmds[..k], cmds[k..]);
      BlanksInert(cmds[k..]);
      FrontComplete(cmds, k);
      hide SplitAll, Lines, Inert;
      forall chunks: seq<string> | Flatten(chunks) == Lines(cmds)
        ensures SplitAll("", chunks).1 == Filter(cmds, Not(Blank()))
      {
        RunsThenInert(cmds[..k], Lines(cmds[k..]), chunks);
      }
    }
  }

  // ----- bytes -----

  /** A byte stream as the characters it was written from. */
  function Chars(bytes: seq<u8>): string {
    if bytes == [] then "" else [bytes[0] as char] + Chars(bytes[1..])
  }

  lemma {:induction false} TextWhole(chunk: seq<u8>)
    ensures |Text(chunk)| == |chunk| <==> 0 !in chunk
    ensures |Text(chunk)| <= |chunk| == |Chars(chunk)| && (0 !in chunk ==> Text(chunk) == Chars(chunk))
  {
    if chunk == [] {
    } else {
      TextWhole(chunk[1..]);
      assert chunk == [chunk[0]] + chunk[1..];
    }
  }

  lemma {:induction false} CharsAppend(a: seq<u8>, b: seq<u8>)
    ensures Chars(a + b) == Chars(a) + Chars(b)
  {
    if a == [] {
      assert a + b == b;
    } else {
      CharsAppend(a[1..], b);
      assert (a + b)[1..] == a[1..] + b && (a + b)[0] == a[0];
      Assoc([a[0] as char], Chars(a[1..]), Chars(b));
    }
  }

  lemma {:induction false} TextsJoin(chunks: seq<seq<u8>>)
    requires 0 !in Flatten(chunks)
    ensures Flatten(Map(chunks, Texts())) == Chars(Flatten(chunks))
  {
    if chunks == [] {
    } else {
      var rest := Flatten(chunks[1..]);
      assert Flatten(chunks) == chunks[0] + rest;
      assert forall b | b in chunks[0] || b in rest :: b in Flatten(chunks);
      TextsJoin(chunks[1..]);
      TextWhole(chunks[0]);
      CharsAppend(chunks[0], rest);
      hide Text, Chars;
      assert Map(chunks, Texts())[1..] == Map(chunks[1..], Texts());
    }
  }

  lemma OneText(bytes: seq<u8>)
    ensures Flatten([bytes]) == bytes && Map([bytes], Texts()) == [Text(bytes)] && Flatten([Text(bytes)]) == Text(bytes)
  {
    hide Text;
    assert [bytes][1..] == [] && [Text(bytes)][1..] == [];
  }

  /** The characters of a stream reach the cache under every cut exactly when it holds no
      NUL: the conversion of a chunk ends at one. */
  lemma NulLosesIff(bytes: seq<u8>)
    ensures (forall chunks: seq<seq<u8>> | Flatten(chunks) == bytes :: Flatten(Map(chunks, Texts())) == Chars(bytes))
       <==> 0 !in bytes
  {
    if 0 in bytes {
      TextWhole(bytes);
      OneText(bytes);
    } else {
      forall chunks: seq<seq<u8>> | Flatten(chunks) == bytes ensures Flatten(Map(chunks, Texts())) == Chars(bytes) {
        TextsJoin(chunks);
      }
    }
  }

  /** Any cut of a stream of non-blank commands, even between CR and LF, runs each command
      once, in order, and caches exactly the unfinished end. */
  lemma RunsEach(cmds: seq<string>, tail: string, bytes: seq<u8>, chunks: seq<seq<u8>>)
    requires AllComplete(cmds) && FirstCrLf(tail, 0) < 0
    requires Chars(bytes) == Lines(cmds) + tail && 0 !in bytes && Flatten(chunks) == bytes
    ensures SplitAll("", Map(chunks, Texts())) == (tail, cmds)
  {
    TextsJoin(chunks);
    hide SplitAll, Map, Flatten;
    RunsText(cmds, tail, Map(chunks, Texts()));
  }

  /** The non-blank commands are all run, whatever the cut, exactly when no blank line
      stands before one of them. */
  lemma RunsEachIff(cmds: seq<string>, bytes: seq<u8>)
    requires (forall c | c in cmds :: FirstCrLf(c, 0) < 0) && Chars(bytes) == Lines(cmds) && 0 !in bytes
    ensures (forall chunks: seq<seq<u8>> | Flatten(chunks) == bytes ::
               SplitAll("", Map(chunks, Texts())).1 == Filter(cmds, Not(Blank())))
       <==> ComeLast(cmds, Blank())
  {
    RunsTextIff(cmds);
    hide SplitAll, Lines, Chars;
    if ComeLast(cmds, Blank()) {
      forall chunks: seq<seq<u8>> | Flatten(chunks) == bytes
        ensures SplitAll("", Map(chunks, Texts())).1 == Filter(cmds, Not(Blank()))
      {
        TextsJoin(chunks);
      }
    } else {
      OneText(bytes);
      TextWhole(bytes);
      assert SplitAll("", Map([bytes], Texts())).1 != Filter(cmds, Not(Blank()));
    }
  }
}
