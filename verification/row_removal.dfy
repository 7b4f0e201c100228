/** removeItems of the GUI's RulesTableModel: rows removed one by one from a list whose
    remaining row numbers are shifted down after each removal. */
module RowRemoval {
  import opened Seqs

  /** QList::removeAt, which ignores an index out of range. */
  function RemoveRow<T>(s: seq<T>, r: int): seq<T> { if 0 <= r < |s| then RemoveAt(s, r) else s }

  /** The removals left once `done` rows have been taken. */
  function RemoveRows<T>(s: seq<T>, rows: seq<int>, done: nat): seq<T>
    decreases |rows|
  {
    if rows == [] then s else RemoveRows(RemoveRow(s, rows[0] - done), rows[1..], done + 1)
  }

  /** The elements whose index, counted on from `from`, is not among `rows`. */
  function Unselected<T>(s: seq<T>, rows: seq<int>, from: int): seq<T> {
    if s == [] then [] else (if from in rows then [] else [s[0]]) + Unselected(s[1..], rows, from + 1)
  }

  predicate Rising(rows: seq<int>) { forall i, j | 0 <= i < j < |rows| :: rows[i] < rows[j] }

  predicate Ordered(rows: seq<int>) { forall i, j | 0 <= i < j < |rows| :: rows[i] <= rows[j] }

  predicate Within(rows: seq<int>, lo: int, hi: int) { forall r | r in rows :: lo <= r < hi }

  /** No row up to index `d` is repeated right after itself. */
  predicate NoRepeat(rows: seq<int>, d: nat)
    requires d < |rows|
  {
    forall j | 0 <= j < d :: rows[j] != rows[j+1]
  }

  /** The top rows of the table, one by one, with only the last of them repeated. */
  predicate TopRows(rows: seq<int>) {
    rows != [] && forall j | 0 <= j < |rows| :: rows[j] == if j < rows[|rows|-1] then j else rows[|rows|-1]
  }

  /** The inner loop: every row still to go is one higher up now. */
  method CountDown(later: seq<int>) returns (rows: seq<int>)
    ensures |rows| == |later| && forall k | 0 <= k < |rows| :: rows[k] == later[k] - 1
  {
    rows := later;
    var i := 0;
    while i < |rows|
      invariant i <= |rows| == |later|
      invariant forall k | 0 <= k < |rows| :: rows[k] == if k < i then later[k] - 1 else later[k]
    {
      rows := rows[i := rows[i] - 1];
      i := i + 1;
    }
  }

  lemma RemoveRowsFrom<T>(s: seq<T>, rows: seq<int>, j: nat)
    requires j <= |rows|
    ensures RemoveRows(s, rows[j..], j) ==
            if j == |rows| then s else RemoveRows(RemoveRow(s, rows[j] - j), rows[j+1..], j + 1)
  {
    if j < |rows| { assert rows[j..][1..] == rows[j+1..]; }
  }

  /** Take the first row, remove it, count all the others down. */
  method RemoveItems<T>(items: seq<T>, sorted: seq<int>) returns (left: seq<T>)
    ensures left == RemoveRows(items, sorted, 0)
  {
    hide RemoveRows, RemoveRow;
    left := items;
    var rows := sorted;
    ghost var j := 0;
    assert sorted[0..] == sorted;
    while |rows| > 0
      invariant j + |rows| == |sorted| && forall i | 0 <= i < |rows| :: rows[i] == sorted[j+i] - j
      invariant RemoveRows(left, sorted[j..], j) == RemoveRows(items, sorted, 0)
      decreases |rows|
    {
      RemoveRowsFrom(left, sorted, j);
      left := RemoveRow(left, rows[0]);
      rows := CountDown(rows[1..]);
      j := j + 1;
    }
    RemoveRowsFrom(left, sorted, j);
  }

  lemma {:induction false} UnselectedSame<T>(s: seq<T>, a: seq<int>, b: seq<int>, from: int)
    requires forall r | from <= r < from + |s| :: r in a <==> r in b
    ensures Unselected(s, a, from) == Unselected(s, b, from)
  {
    if s == [] {
    } else {
      UnselectedSame(s[1..], a, b, from + 1);
    }
  }

  lemma {:induction false} UnselectedNone<T>(s: seq<T>, from: int)
    ensures Unselected(s, [], from) == s
  {
    if s == [] {
    } else {
      UnselectedNone(s[1..], from + 1);
    }
  }

  lemma {:induction false} RemoveRowsAppend<T>(s: seq<T>, a: seq<int>, b: seq<int>, done: nat)
    ensures RemoveRows(s, a + b, done) == RemoveRows(RemoveRows(s, a, done), b, done + |a|)
    decreases |a|
  {
    if a == [] {
      assert a + b == b;
    } else {
      assert (a + b)[1..] == a[1..] + b;
      RemoveRowsAppend(RemoveRow(s, a[0] - done), a[1..], b, done + 1);
    }
  }

  /** Distinct rows, in order, take out exactly themselves. */
  lemma {:induction false} RisingRemoves<T>(pre: seq<T>, s: seq<T>, rows: seq<int>, from: int, done: nat)
    requires Rising(rows) && Within(rows, from, from + |s|) && |pre| == from - done
    ensures RemoveRows(pre + s, rows, done) == pre + Unselected(s, rows, from)
    ensures |Unselected(s, rows, from)| == |s| - |rows|
    decreases |s|
  {
    hide Rising, Within;
    if rows == [] {
      UnselectedNone(s, from);
    } else {
      RisingTail(rows, from, from + |s|);
      UnselectedStep(s, rows, from);
      hide Unselected;
      if rows[0] == from {
        RemovePast(pre, s, rows, done);
        hide RemoveRows;
        RisingRemoves(pre, s[1..], rows[1..], from + 1, done + 1);
        UnselectedSame(s[1..], rows, rows[1..], from + 1);
      } else {
        hide RemoveRows;
        Assoc(pre, [s[0]], s[1..]);
        assert [s[0]] + s[1..] == s;
        RisingRemoves(pre + [s[0]], s[1..], rows, from + 1, done);
        Assoc(pre, [s[0]], Unselected(s[1..], rows, from + 1));
      }
    }
  }

  lemma UnselectedStep<T>(s: seq<T>, rows: seq<int>, from: int)
    requires s != []
    ensures Unselected(s, rows, from) ==
      if from in rows then Unselected(s[1..], rows, from + 1) else [s[0]] + Unselected(s[1..], rows, from + 1)
  {
    if from in rows { assert [] + Unselected(s[1..], rows, from + 1) == Unselected(s[1..], rows, from + 1); }
  }

  lemma RemovePast<T>(pre: seq<T>, s: seq<T>, rows: seq<int>, done: nat)
    requires s != [] && rows != [] && rows[0] - done == |pre|
    ensures RemoveRows(pre + s, rows, done) == RemoveRows(pre + s[1..], rows[1..], done + 1)
  {
    assert RemoveAt(pre + s, |pre|) == pre + s[1..];
  }

  lemma RisingTail(rows: seq<int>, lo: int, hi: int)
    requires rows != [] && Rising(rows) && Within(rows, lo, hi)
    ensures lo <= rows[0] < hi && Rising(rows[1..]) && Within(rows[1..], rows[0] + 1, hi)
    ensures forall r :: r in rows <==> r == rows[0] || r in rows[1..]
    ensures lo < rows[0] ==> Within(rows, lo + 1, hi)
    ensures lo == rows[0] ==> Within(rows[1..], lo + 1, hi)
  {
    assert rows[0] in rows && rows == [rows[0]] + rows[1..];
    forall r | r in rows[1..] ensures rows[0] < r < hi {
      var i :| 0 <= i < |rows[1..]| && rows[1..][i] == r;
      assert rows[i+1] == r && rows[i+1] in rows;
    }
  }

  predicate Distinct<T(==)>(s: seq<T>) { forall i, j | 0 <= i < j < |s| :: s[i] != s[j] }

  /** Exactly the selected rows are gone. */
  predicate RemovesSelected<T(==)>(s: seq<T>, rows: seq<int>) { RemoveRows(s, rows, 0) == Unselected(s, rows, 0) }

  lemma RisingExact<T>(s: seq<T>, rows: seq<int>)
    requires Rising(rows) && Within(rows, 0, |s|)
    ensures RemovesSelected(s, rows) && |Unselected(s, rows, 0)| == |s| - |rows|
  {
    RisingRemoves([], s, rows, 0, 0);
    assert [] + s == s && [] + Unselected(s, rows, 0) == Unselected(s, rows, 0);
  }

  /** Rows counted down past the top remove nothing. */
  lemma {:induction false} NoMore<T>(s: seq<T>, rows: seq<int>, done: nat)
    requires forall j | 0 <= j < |rows| :: rows[j] < done
    ensures RemoveRows(s, rows, done) == s
    decreases |rows|
  {
    if rows == [] {
    } else {
      NoMore(s, rows[1..], done + 1);
    }
  }

  /** Up to its first repetition, a list of rows is one of distinct rows. */
  lemma PrefixExact<T>(s: seq<T>, rows: seq<int>, d: nat)
    requires Ordered(rows) && Within(rows, 0, |s|) && d < |rows|
    requires NoRepeat(rows, d)
    ensures Rising(rows[..d+1]) && RemovesSelected(s, rows[..d+1]) && |Unselected(s, rows[..d+1], 0)| == |s| - (d + 1)
  {
    var a := rows[..d+1];
    forall i, j | 0 <= i < j < |a| ensures a[i] < a[j] { assert rows[i] <= rows[j-1] && rows[j-1] != rows[j-1+1]; }
    assert forall r | r in a :: r in rows;
    RisingExact(s, a);
  }

  lemma TopParts(rows: seq<int>)
    requires TopRows(rows) && forall r | r in rows :: r >= 0
    ensures var m := rows[|rows|-1];
      && 0 <= m < |rows| && NoRepeat(rows, m)
      && (forall j | m < j < |rows| :: rows[j] == m)
      && (forall r :: r in rows <==> r in rows[..m+1])
  {
    var m := rows[|rows|-1];
    assert m in rows && rows[|rows|-1] == if |rows| - 1 < m then |rows| - 1 else m;
    assert rows[..m+1][m] == m;
    forall r | r in rows ensures r in rows[..m+1] {
      var i :| 0 <= i < |rows| && rows[i] == r;
      if i <= m { assert rows[..m+1][i] == r; }
    }
  }

  lemma TopSelection<T>(s: seq<T>, rows: seq<int>, m: nat)
    requires m < |rows| && forall r :: r in rows <==> r in rows[..m+1]
    ensures Unselected(s, rows, 0) == Unselected(s, rows[..m+1], 0)
  {
    UnselectedSame(s, rows, rows[..m+1], 0);
  }

  lemma TopDone<T>(s: seq<T>, rows: seq<int>, m: nat)
    requires m < |rows| && forall j | m < j < |rows| :: rows[j] == m
    ensures RemoveRows(s, rows, 0) == RemoveRows(s, rows[..m+1], 0)
  {
    hide RemoveRows;
    var b := rows[m+1..];
    assert rows == rows[..m+1] + b && forall j | 0 <= j < |b| :: b[j] == rows[m+1+j];
    RemoveRowsAppend(s, rows[..m+1], b, 0);
    NoMore(RemoveRows(s, rows[..m+1], 0), b, m + 1);
  }

  lemma TopExact<T>(s: seq<T>, rows: seq<int>)
    requires Ordered(rows) && Within(rows, 0, |s|) && TopRows(rows)
    ensures RemovesSelected(s, rows)
  {
    assert forall r | r in rows :: r >= 0;
    hide TopRows, Unselected, RemoveRows, Ordered, Within, Rising, NoRepeat;
    var m := rows[|rows|-1];
    TopParts(rows);
    PrefixExact(s, rows, m);
    TopDone(s, rows, m);
    TopSelection(s, rows, m);
  }

  predicate KeptAt<T(==)>(s: seq<T>, rows: seq<int>, from: int, x: T, i: int) {
    0 <= i < |s| && s[i] == x && from + i !in rows
  }

  lemma {:induction false} UnselectedIn<T>(s: seq<T>, rows: seq<int>, from: int, x: T)
    ensures x in Unselected(s, rows, from) <==> exists i :: KeptAt(s, rows, from, x, i)
  {
    if s == [] {
    } else {
      var rest, next := s[1..], from + 1;
      UnselectedIn(rest, rows, next, x);
      assert KeptAt(s, rows, from, x, 0) <==> s[0] == x && from !in rows;
      if i :| KeptAt(s, rows, from, x, i) {
        assert i == 0 || KeptAt(rest, rows, next, x, i - 1);
      }
      if i :| KeptAt(rest, rows, next, x, i) { assert KeptAt(s, rows, from, x, i + 1); }
    }
  }

  /** An element no later removal reaches stays. */
  lemma {:induction false} Survives<T>(s: seq<T>, rows: seq<int>, done: nat, p: nat)
    requires p < |s| && forall j | 0 <= j < |rows| :: rows[j] - done < p
    ensures s[p] in RemoveRows(s, rows, done)
    decreases |rows|
  {
    if rows == [] {
    } else {
      var r, rest := rows[0] - done, rows[1..];
      var p' := StaysPut(s, r, p);
      forall j | 0 <= j < |rest| ensures rest[j] - (done + 1) < p' { assert rest[j] == rows[j+1]; }
      hide RemoveRow;
      Survives(RemoveRow(s, r), rest, done + 1, p');
    }
  }

  lemma StaysPut<T>(s: seq<T>, r: int, p: nat) returns (p': nat)
    requires r < p < |s|
    ensures p' < |RemoveRow(s, r)| && RemoveRow(s, r)[p'] == s[p] && p' == if r < 0 then p else p - 1
  {
    p' := if r < 0 then p else p - 1;
  }

  lemma {:induction false} RemovedStays<T>(s: seq<T>, rows: seq<int>, done: nat, x: T)
    requires x !in s
    ensures x !in RemoveRows(s, rows, done)
    decreases |rows|
  {
    if rows == [] {
    } else {
      RemovedStays(RemoveRow(s, rows[0] - done), rows[1..], done + 1, x);
    }
  }

  lemma {:induction false} UnselectedAppend<T>(a: seq<T>, b: seq<T>, rows: seq<int>, from: int)
    ensures Unselected(a + b, rows, from) == Unselected(a, rows, from) + Unselected(b, rows, from + |a|)
  {
    if a == [] {
      assert a + b == b;
    } else {
      assert (a + b)[1..] == a[1..] + b;
      UnselectedStep(a, rows, from);
      UnselectedStep(a + b, rows, from);
      hide Unselected;
      UnselectedAppend(a[1..], b, rows, from + 1);
      Assoc([a[0]], Unselected(a[1..], rows, from + 1), Unselected(b, rows, from + |a|));
    }
  }

  lemma {:induction false} UnselectedDistinct<T>(s: seq<T>, rows: seq<int>, from: int)
    requires Distinct(s)
    ensures Distinct(Unselected(s, rows, from))
  {
    if s == [] {
    } else {
      var rest := Unselected(s[1..], rows, from + 1);
      UnselectedDistinct(s[1..], rows, from + 1);
      forall j | 0 <= j < |rest| ensures rest[j] != s[0] {
        UnselectedIn(s[1..], rows, from + 1, rest[j]);
        assert rest[j] in rest;
      }
    }
  }

  lemma BelowLast(a: seq<int>, b: seq<int>, n: nat)
    requires a != [] && b == a[..|a|-1] && Rising(a) && Within(a, 0, n)
    ensures Rising(b) && Within(b, 0, a[|a|-1])
  {
    forall r | r in b ensures 0 <= r < a[|a|-1] {
      var i :| 0 <= i < |b| && b[i] == r;
      assert a[i] < a[|a|-1] && a[i] in a;
    }
  }

  /** The elements kept above row `m`, when `d` distinct rows above it go. */
  lemma KeptAbove<T>(s: seq<T>, rows: seq<int>, d: nat, m: nat)
    requires d < |rows| && m <= |s| && rows[d] == m && Rising(rows[..d+1]) && Within(rows[..d+1], 0, |s|)
    ensures var a := rows[..d+1];
      && |Unselected(s[..m], a, 0)| == m - d
      && Unselected(s, a, 0) == Unselected(s[..m], a, 0) + Unselected(s[m..], a, m)
  {
    var a := rows[..d+1];
    LeftBelow(s[..m], a);
    hide Rising, Within, Unselected;
    assert s == s[..m] + s[m..];
    UnselectedAppend(s[..m], s[m..], a, 0);
  }

  lemma LeftBelow<T>(s: seq<T>, a: seq<int>)
    requires a != [] && Rising(a) && Within(a, 0, |s| + 1) && a[|a|-1] == |s|
    ensures |Unselected(s, a, 0)| == |s| - (|a| - 1)
  {
    var b := a[..|a|-1];
    BelowLast(a, b, |s| + 1);
    assert a == b + [|s|];
    hide Rising, Within, Unselected;
    RisingExact(s, b);
    UnselectedSame(s, a, b, 0);
  }

  /** Of the rows above a repeated one, `u` is kept by its first copy and hit by its second. */
  lemma HitAbove<T>(s: seq<T>, rows: seq<int>, d: nat) returns (u: nat)
    requires Ordered(rows) && Within(rows, 0, |s|) && d < |rows| && Rising(rows[..d+1]) && rows[d] > d
    ensures rows[d] - d - 1 < |Unselected(s, rows[..d+1], 0)|
    ensures u < |s| && u !in rows && s[u] == Unselected(s, rows[..d+1], 0)[rows[d]-d-1]
  {
    var a, m, q := rows[..d+1], rows[d], rows[d] - d - 1;
    assert rows[d] in rows && forall r | r in a :: r in rows;
    hide Rising;
    KeptAbove(s, rows, d, m);
    hide Unselected, Within;
    var x := Unselected(s[..m], a, 0)[q];
    UnselectedIn(s[..m], a, 0, x);
    var i :| KeptAt(s[..m], a, 0, x, i);
    u := i;
    NotLater(rows, d, u);
  }

  lemma NotLater(rows: seq<int>, d: nat, u: int)
    requires Ordered(rows) && d < |rows| && u < rows[d] && u !in rows[..d+1]
    ensures u !in rows
  {
    forall i | 0 <= i < |rows| ensures rows[i] != u {
      if i <= d { assert rows[i] == rows[..d+1][i]; } else { assert rows[d] <= rows[i]; }
    }
  }

  lemma RemoveRowsCons<T>(s: seq<T>, rows: seq<int>, done: nat)
    requires rows != []
    ensures RemoveRows(s, rows, done) == RemoveRows(RemoveRow(s, rows[0] - done), rows[1..], done + 1)
  {
  }

  lemma GoneFrom<T>(t: seq<T>, q: nat)
    requires Distinct(t) && q < |t|
    ensures t[q] !in RemoveRow(t, q)
  {
  }

  /** What follows the first `d` + 1 rows, run on what they left. */
  lemma RestOfRows<T>(s: seq<T>, rows: seq<int>, d: nat)
    requires d + 1 < |rows|
    ensures RemoveRows(s, rows, 0) ==
            RemoveRows(RemoveRow(RemoveRows(s, rows[..d+1], 0), rows[d+1] - (d + 1)), rows[d+2..], d + 2)
  {
    hide RemoveRows, RemoveRow;
    assert rows == rows[..d+1] + rows[d+1..] && rows[d+1..][1..] == rows[d+2..];
    RemoveRowsAppend(s, rows[..d+1], rows[d+1..], 0);
    RemoveRowsCons(RemoveRows(s, rows[..d+1], 0), rows[d+1..], d + 1);
  }

  /** A repeated row with unselected rows above it takes out one of those. */
  lemma RepeatTakesAnother<T>(s: seq<T>, rows: seq<int>, d: nat)
    requires Distinct(s) && Ordered(rows) && Within(rows, 0, |s|) && d + 1 < |rows|
    requires NoRepeat(rows, d) && rows[d] == rows[d+1] > d
    ensures !RemovesSelected(s, rows)
  {
    hide Ordered, Within, Distinct, Rising, Unselected, RemoveRows, RemoveRow, NoRepeat;
    var a, q := rows[..d+1], rows[d] - d - 1;
    PrefixExact(s, rows, d);
    var t := Unselected(s, a, 0);
    var u := HitAbove(s, rows, d);
    UnselectedDistinct(s, a, 0);
    GoneFrom(t, q);
    RestOfRows(s, rows, d);
    RemovedStays(RemoveRow(t, q), rows[d+2..], d + 2, t[q]);
    UnselectedIn(s, rows, 0, s[u]);
    assert KeptAt(s, rows, 0, s[u], u);
  }

  lemma TopGone<T>(s: seq<T>, rows: seq<int>, d: nat)
    requires d < |rows| && rows[d] == d < |s| && Rising(rows[..d+1]) && Within(rows[..d+1], 0, |s|)
    ensures Unselected(s, rows[..d+1], 0) == s[d+1..]
  {
    hide Unselected, RemoveRows;
    var a := rows[..d+1];
    forall r | r in a ensures r < d + 1 {
      var i :| 0 <= i < |a| && a[i] == r;
      if i < d { assert a[i] < a[d]; }
    }
    RisingExact(s[..d+1], a);
    hide Rising, Within;
    UnselectedAppend(s[..d+1], s[d+1..], a, 0);
    UnselectedSame(s[d+1..], a, [], d + 1);
    UnselectedNone(s[d+1..], d + 1);
    assert s == s[..d+1] + s[d+1..] && [] + s[d+1..] == s[d+1..];
  }

  lemma LaterBelow(rows: seq<int>, later: seq<int>, d: nat)
    requires Ordered(rows) && d + 1 < |rows| && later == rows[d+2..]
    ensures forall j | 0 <= j < |later| :: later[j] <= rows[|rows|-1]
  {
    forall j | 0 <= j < |later| ensures later[j] <= rows[|rows|-1] {
      assert later[j] == rows[d+2+j];
    }
  }

  /** A repeated row right under the table's top makes a later row stay. */
  lemma RepeatSparesLast<T>(s: seq<T>, rows: seq<int>, d: nat)
    requires Distinct(s) && Ordered(rows) && Within(rows, 0, |s|) && d + 1 < |rows|
    requires NoRepeat(rows, d) && rows[d] == rows[d+1] == d && rows[|rows|-1] > d
    ensures !RemovesSelected(s, rows)
  {
    var a, last := rows[..d+1], rows[|rows|-1];
    assert rows[d] in rows && last in rows && forall r | r in a :: r in rows;
    assert Within(a, 0, |s|) && last < |s|;
    hide Ordered, Within, Rising, Unselected, RemoveRows, NoRepeat, Distinct;
    PrefixExact(s, rows, d);
    TopGone(s, rows, d);
    var t := s[d+1..];
    RestOfRows(s, rows, d);
    var later := rows[d+2..];
    LaterBelow(rows, later, d);
    Survives(t, later, d + 2, last - d - 1);
    StillThere(s, rows, last);
  }

  lemma StillThere<T>(s: seq<T>, rows: seq<int>, last: int)
    requires Distinct(s) && 0 <= last < |s| && last in rows && s[last] in RemoveRows(s, rows, 0)
    ensures !RemovesSelected(s, rows)
  {
    hide RemoveRows, Unselected;
    UnselectedIn(s, rows, 0, s[last]);
    forall i ensures !KeptAt(s, rows, 0, s[last], i) {
      if 0 <= i < |s| && i != last { assert s[i] != s[last]; }
    }
  }

  lemma {:induction false} FirstRepeat(rows: seq<int>, from: nat) returns (d: nat)
    requires Ordered(rows) && from < |rows| && NoRepeat(rows, from)
    ensures from <= d < |rows| && NoRepeat(rows, d)
    ensures d + 1 < |rows| ==> rows[d] == rows[d+1]
    decreases |rows| - from
  {
    if from + 1 < |rows| && rows[from] != rows[from+1] {
      d := FirstRepeat(rows, from + 1);
    } else {
      d := from;
    }
  }

  /** Without a repetition before `d`, rows stay at or above their index; and are at it up
      to a row that is. */
  lemma {:induction false} AtLeastIndex(rows: seq<int>, d: nat)
    requires Ordered(rows) && d < |rows| && rows[0] >= 0 && NoRepeat(rows, d)
    ensures rows[d] >= d
    ensures rows[d] == d ==> forall j | 0 <= j <= d :: rows[j] == j
  {
    if d == 0 {
    } else {
      AtLeastIndex(rows, d - 1);
      assert rows[d-1] <= rows[d] && rows[d-1] != rows[d-1+1];
    }
  }

  /** removeItems takes out exactly the selected rows if and only if no row is selected
      twice, or the selection is the table's top rows with only the last one repeated. */
  lemma RemovesSelectedIff<T>(s: seq<T>, rows: seq<int>)
    requires Distinct(s) && Ordered(rows) && Within(rows, 0, |s|)
    ensures RemovesSelected(s, rows) <==> Rising(rows) || TopRows(rows)
  {
    hide RemovesSelected, Distinct, Within, TopRows, Rising, NoRepeat;
    if Rising(rows) {
      RisingExact(s, rows);
    } else if TopRows(rows) {
      TopExact(s, rows);
    } else {
      NotEmpty(rows, |s|);
      var d := FirstRepeat(rows, 0);
      AtLeastIndex(rows, d);
      NotTop(rows, d);
      if rows[d] > d {
        RepeatTakesAnother(s, rows, d);
      } else {
        RepeatSparesLast(s, rows, d);
      }
    }
  }

  lemma NotEmpty(rows: seq<int>, hi: int)
    requires !Rising(rows) && Within(rows, 0, hi)
    ensures rows != [] && rows[0] >= 0 && NoRepeat(rows, 0)
  {
    assert rows != [] ==> rows[0] in rows;
  }

  lemma NotTop(rows: seq<int>, d: nat)
    requires Ordered(rows) && !Rising(rows) && !TopRows(rows) && d < |rows|
    requires NoRepeat(rows, d)
    requires rows[d] == d ==> forall j | 0 <= j <= d :: rows[j] == j
    ensures d + 1 < |rows| && (rows[d] == d ==> rows[|rows|-1] > d)
  {
    if d + 1 == |rows| {
      forall i, j | 0 <= i < j < |rows|
        ensures rows[i] < rows[j]
      {
        assert rows[i] <= rows[j-1] && rows[j-1] != rows[j-1+1];
      }
    } else if rows[d] == d && rows[|rows|-1] <= d {
      forall j | 0 <= j < |rows| ensures rows[j] == if j < d then j else d {
        if j > d { assert rows[d] <= rows[j] && (j < |rows| - 1 ==> rows[j] <= rows[|rows|-1]); }
      }
    }
  }
}
