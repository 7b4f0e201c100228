/** bf-service/filelogger.cpp: the current log, file 0, and its numbered backups. */
module FileLog {
  import opened Seqs

  type Files = map<nat, string>

  function At(f: Files, k: nat): Option<string> { if k in f then Some(f[k]) else None }

  function Text(o: Option<string>): string { if o.Some? then o.value else "" }

  /** QFile::remove. */
  function Remove(f: Files, k: nat): Files { map i | i in f && i != k :: f[i] }

  /** QFile::rename, which does nothing if the file is missing; the target never exists. */
  function Rename(f: Files, from: nat, to: nat): Files {
    if from in f then Remove(f, from)[to := f[from]] else f
  }

  predicate HasBelow(f: Files, k: nat) { k > 0 && k - 1 in f }

  function Below(f: Files, k: nat): string
    requires HasBelow(f, k)
  {
    f[k-1]
  }

  /** One rotation with `n` backups: each file moves up by one, the last is lost. */
  function Rotate(f: Files, n: nat): Files {
    (map k: nat | k <= n && HasBelow(f, k) :: Below(f, k)) + (map k | k in f && k > n :: f[k])
  }

  lemma SameFiles(f: Files, g: Files)
    requires forall k: nat :: At(f, k) == At(g, k)
    ensures f == g
  {
    forall k: nat ensures (k in f <==> k in g) && (k in f ==> f[k] == g[k]) { assert At(f, k) == At(g, k); }
  }

  class FileLogger {
    const maxSize: int
    const logCount: nat
    var files: Files

    constructor (maxSize: int, logCount: nat, files: Files)
      ensures this.maxSize == maxSize && this.logCount == logCount && this.files == files
    {
      this.maxSize, this.logCount, this.files := maxSize, logCount, files;
    }

    method CheckAndRotate()
      modifies `files
      ensures files == if |Text(At(old(files), 0))| > maxSize then Rotate(old(files), logCount) else old(files)
    {
      if |Text(At(files, 0))| > maxSize {
        ghost var was := files;
        if logCount == 0 {
          files := Remove(files, 0);
        } else {
          var i := logCount;
          while i > 1
            invariant 1 <= i <= logCount
            invariant forall k: nat :: At(files, k) == Moving(was, i, logCount, k)
          {
            MovesOn(was, files, i, logCount);
            files := Remove(files, i);
            files := Rename(files, i - 1, i);
            i := i - 1;
          }
          MovesOn(was, files, 1, logCount);
          files := Remove(files, 1);
          files := Rename(files, 0, 1);
        }
        forall k: nat ensures At(files, k) == At(Rotate(was, logCount), k) {}
        SameFiles(files, Rotate(was, logCount));
      }
    }

    /** write_msg: rotate if the log has outgrown its size, then append a line. */
    method WriteMsg(msg: string)
      modifies `files
      ensures files == Written(old(files), msg, maxSize, logCount)
    {
      CheckAndRotate();
      files := files[0 := Text(At(files, 0)) + msg + "\n"];
    }

    method WriteAll(msgs: seq<string>)
      modifies `files
      ensures files == AllWritten(old(files), msgs, maxSize, logCount)
    {
      var i := 0;
      while i < |msgs|
        invariant i <= |msgs| && files == AllWritten(old(files), msgs[..i], maxSize, logCount)
      {
        assert msgs[..i+1][..i] == msgs[..i];
        WriteMsg(msgs[i]);
        i := i + 1;
      }
      assert msgs[..i] == msgs;
    }
  }

  /** File `k` while the files above `i` have moved up and `i` itself has been vacated. */
  function Moving(was: Files, i: nat, n: nat, k: nat): Option<string> {
    if i < k <= n then At(was, k - 1) else if k == i < n then None else At(was, k)
  }

  lemma MovesOn(was: Files, f: Files, i: nat, n: nat)
    requires 0 < i <= n && forall k: nat :: At(f, k) == Moving(was, i, n, k)
    ensures var g := Rename(Remove(f, i), i - 1, i); forall k: nat :: At(g, k) == Moving(was, i - 1, n, k)
  {
    var g := Rename(Remove(f, i), i - 1, i);
    forall k: nat ensures At(g, k) == Moving(was, i - 1, n, k) {
      assert At(f, k) == Moving(was, i, n, k) && At(f, i - 1) == Moving(was, i, n, i - 1);
    }
  }

  predicate Outgrown(f: Files, maxSize: int) { |Text(At(f, 0))| > maxSize }

  function Written(f: Files, msg: string, maxSize: int, n: nat): Files {
    var g := if Outgrown(f, maxSize) then Rotate(f, n) else f;
    g[0 := Text(At(g, 0)) + msg + "\n"]
  }

  /** A write starts a new log exactly when the old one is longer than the maximum; the old
      one is backup 1 then, if there are backups. Otherwise it only grows. */
  lemma WriteRotatesIff(f: Files, msg: string, maxSize: int, n: nat)
    ensures var g, log := Written(f, msg, maxSize, n), Text(At(f, 0));
      if |log| > maxSize
      then At(g, 0) == Some(msg + "\n") && (n > 0 ==> At(g, 1) == At(f, 0))
      else At(g, 0) == Some(log + msg + "\n") && forall k: nat | k > 0 :: At(g, k) == At(f, k)
  {
    assert "" + msg == msg;
  }

  function AllWritten(f: Files, msgs: seq<string>, maxSize: int, n: nat): Files
    decreases |msgs|
  {
    if msgs == [] then f else Written(AllWritten(f, msgs[..|msgs|-1], maxSize, n), msgs[|msgs|-1], maxSize, n)
  }

  /** What the current log held at each rotation of a run, newest first. */
  function Rotations(f: Files, msgs: seq<string>, maxSize: int, n: nat): seq<Option<string>>
    decreases |msgs|
  {
    if msgs == [] then []
    else
      var before := AllWritten(f, msgs[..|msgs|-1], maxSize, n);
      var earlier := Rotations(f, msgs[..|msgs|-1], maxSize, n);
      if Outgrown(before, maxSize) then [At(before, 0)] + earlier else earlier
  }

  lemma WrittenAt(f: Files, msg: string, maxSize: int, n: nat, k: nat)
    requires k > 0
    ensures At(Written(f, msg, maxSize, n), k) == if Outgrown(f, maxSize) && k <= n then At(f, k - 1) else At(f, k)
  {
  }

  /** The k-th most recent rotation, or the backup that was there that many places down. */
  function Backup(f: Files, rs: seq<Option<string>>, k: nat): Option<string>
    requires k > 0
  {
    if k <= |rs| then rs[k-1] else At(f, k - |rs|)
  }

  /** After any run of writes, backup `.k` holds what the log held at the k-th most recent
      rotation; one older than the run is the backup that many places down, or missing. */
  lemma {:induction false} BackupIsRotation(f: Files, msgs: seq<string>, maxSize: int, n: nat, k: nat)
    requires 0 < k <= n
    ensures At(AllWritten(f, msgs, maxSize, n), k) == Backup(f, Rotations(f, msgs, maxSize, n), k)
    decreases |msgs|
  {
    hide At, Written, Outgrown;
    if msgs == [] {
    } else {
      var front := msgs[..|msgs|-1];
      var before := AllWritten(f, front, maxSize, n);
      WrittenAt(before, msgs[|msgs|-1], maxSize, n, k);
      if Outgrown(before, maxSize) {
        if k > 1 { BackupIsRotation(f, front, maxSize, n, k - 1); }
      } else {
        BackupIsRotation(f, front, maxSize, n, k);
      }
    }
  }

  predicate SizesUpTo(f: Files, n: nat, limit: int) {
    forall k | 0 <= k <= n && k in f :: |f[k]| <= limit
  }

  /** No log file ever exceeds the maximum size by more than one message and its newline. */
  lemma {:induction false} SizesBounded(f: Files, msgs: seq<string>, maxSize: int, n: nat, longest: nat)
    requires maxSize >= 0 && SizesUpTo(f, n, maxSize + longest + 1) && forall m | m in msgs :: |m| <= longest
    ensures SizesUpTo(AllWritten(f, msgs, maxSize, n), n, maxSize + longest + 1)
    decreases |msgs|
  {
    if msgs == [] {
    } else {
      var front, msg := msgs[..|msgs|-1], msgs[|msgs|-1];
      var before := AllWritten(f, front, maxSize, n);
      SizesBounded(f, front, maxSize, n, longest);
      var after := Written(before, msg, maxSize, n);
      forall k: nat | k <= n && k in after ensures |after[k]| <= maxSize + longest + 1 {
        if k > 0 {
          WrittenAt(before, msg, maxSize, n, k);
          assert At(after, k) == Some(after[k]);
        }
      }
    }
  }

  /** Backups from `.k` down, then the current log: oldest text first. */
  function Held(f: Files, k: nat): string {
    if k == 0 then Text(At(f, 0)) else Text(At(f, k)) + Held(f, k - 1)
  }

  function Lines(msgs: seq<string>): string
    decreases |msgs|
  {
    if msgs == [] then "" else Lines(msgs[..|msgs|-1]) + (msgs[|msgs|-1] + "\n")
  }

  lemma {:induction false} RotateHeld(f: Files, n: nat, k: nat)
    requires k <= n
    ensures Held(Rotate(f, n), k) == if k == 0 then "" else Held(f, k - 1)
  {
    if k == 1 {
      assert Text(At(f, 0)) + "" == Text(At(f, 0));
    } else if k > 1 {
      RotateHeld(f, n, k - 1);
    }
  }

  lemma {:induction false} AppendHeld(f: Files, more: string, k: nat)
    ensures Held(f[0 := Text(At(f, 0)) + more], k) == Held(f, k) + more
  {
    if k == 0 {
    } else {
      AppendHeld(f, more, k - 1);
      Assoc(Text(At(f, k)), Held(f, k - 1), more);
    }
  }

  lemma WrittenHeld(f: Files, msg: string, maxSize: int, n: nat)
    ensures (if Outgrown(f, maxSize) then Text(At(f, n)) else "") + Held(Written(f, msg, maxSize, n), n) ==
      Held(f, n) + (msg + "\n")
  {
    var g := if Outgrown(f, maxSize) then Rotate(f, n) else f;
    AppendHeld(g, msg + "\n", n);
    Assoc(Text(At(g, 0)), msg, "\n");
    assert Written(f, msg, maxSize, n) == g[0 := Text(At(g, 0)) + (msg + "\n")];
    hide Held, Outgrown;
    if Outgrown(f, maxSize) {
      RotateHeld(f, n, n);
      Assoc(Text(At(f, n)), Held(g, n), msg + "\n");
      assert n == 0 ==> Text(At(f, 0)) + "" == Text(At(f, 0));
    } else {
      assert "" + Held(Written(f, msg, maxSize, n), n) == Held(Written(f, msg, maxSize, n), n);
    }
  }

  /** What a run has lost for good: the oldest file, at each rotation. */
  function Lost(f: Files, msgs: seq<string>, maxSize: int, n: nat): string
    decreases |msgs|
  {
    if msgs == [] then ""
    else
      var before := AllWritten(f, msgs[..|msgs|-1], maxSize, n);
      Lost(f, msgs[..|msgs|-1], maxSize, n) + if Outgrown(before, maxSize) then Text(At(before, n)) else ""
  }

  /** Nothing else is lost, duplicated or reordered: the oldest files rotated out, then the
      backups and the log read oldest first, are all that was there and all that was written. */
  lemma {:induction false} OnlyOldestLost(f: Files, msgs: seq<string>, maxSize: int, n: nat)
    ensures Lost(f, msgs, maxSize, n) + Held(AllWritten(f, msgs, maxSize, n), n) == Held(f, n) + Lines(msgs)
    decreases |msgs|
  {
    if msgs == [] {
      assert "" + Held(f, n) == Held(f, n) + "";
    } else {
      var front, msg := msgs[..|msgs|-1], msgs[|msgs|-1];
      var before := AllWritten(f, front, maxSize, n);
      OnlyOldestLost(f, front, maxSize, n);
      WrittenHeld(before, msg, maxSize, n);
      hide Held, Written, Outgrown;
      var gone := if Outgrown(before, maxSize) then Text(At(before, n)) else "";
      Assoc(Lost(f, front, maxSize, n), gone, Held(Written(before, msg, maxSize, n), n));
      Assoc(Lost(f, front, maxSize, n), Held(before, n), msg + "\n");
      Assoc(Held(f, n), Lines(front), msg + "\n");
    }
  }
}
